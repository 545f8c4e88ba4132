/** One drain pass of the outbox worker, from listing the due rows to the last attempt, with nobody else at work. */
module OutboxWorker {
  import opened Bytes
  import opened Xport
  import opened OutboxKeys
  import opened OutboxModel
  import opened OutboxStore
  import opened OutboxProtocol

  /** What sending one row meets: the first outcome, whether it was a cut for a renewed circuit, the outcome of the
      second try on the new circuit, whether the worker was stopping, and the time. */
  datatype Sending = Sending(first: Outcome, renewed: bool, second: Outcome, stopping: bool, now: int)

  /** The outcome that counts: a row cut for a renewed circuit is sent once more at once. */
  function Final(x: Sending): Outcome { if x.renewed && !x.stopping then x.second else x.first }

  predicate SendingOk(x: Sending) {
    OutcomeOk(x.first, x.now) && OutcomeOk(x.second, x.now) && (x.renewed ==> x.first.SendFailed?)
  }

  function PassTxn(cfg: Config, kv: KV, queue: seq<Row>, xs: seq<Sending>): KV
    requires |queue| == |xs|
  {
    if queue == [] then kv
    else
      var n := |queue| - 1;
      ProcessTxn(cfg, PassTxn(cfg, kv, queue[..n], xs[..n]), queue[n], Final(xs[n]), xs[n].now)
  }

  predicate Attempted(queue: seq<Row>, id: Id) { exists i :: 0 <= i < |queue| && queue[i].id == id }

  /** Each row of the queue became its successor, and every other row stayed. */
  ghost predicate PassDone(cfg: Config, kv: KV, kv': KV, queue: seq<Row>, xs: seq<Sending>) {
    && |queue| <= |xs|
    && (forall i | 0 <= i < |queue| :: RowDone(cfg, kv', queue[i], xs[i]))
    && (forall id: Id :: Attempted(queue, id) || Stored(kv', id) == Stored(kv, id))
  }

  predicate RowDone(cfg: Config, kv: KV, row: Row, x: Sending) {
    Stored(kv, row.id) == Some(ProcessedRow(cfg, row, Final(x), x.now))
  }

  predicate Ready(kv: KV, row: Row) { Stored(kv, row.id) == Some(row) && row.state == Enqueued }

  /** Each row of the queue is attempted once, from the very row that is stored; every other row stays. */
  lemma {:induction false} PassKeeps(cfg: Config, kv: KV, queue: seq<Row>, xs: seq<Sending>)
    requires |queue| == |xs| && Consistent(kv) && DistinctIds(queue)
    requires forall i | 0 <= i < |queue| :: Ready(kv, queue[i])
    requires forall i | 0 <= i < |xs| :: SendingOk(xs[i])
    ensures Consistent(PassTxn(cfg, kv, queue, xs)) && PassDone(cfg, kv, PassTxn(cfg, kv, queue, xs), queue, xs)
    ensures forall i | 0 <= i < |queue| ::
              Stored(PassTxn(cfg, kv, queue, xs), queue[i].id) ==
                Some(ProcessedRow(cfg, queue[i], if xs[i].renewed && !xs[i].stopping then xs[i].second else xs[i].first,
                                  xs[i].now))
  {
    hide Consistent, ProcessTxn, PassDone, Ready, SendingOk;
    if queue == [] {
      assert PassDone(cfg, kv, kv, queue, xs) by { NothingDone(cfg, kv, xs); }
    } else {
      var n := |queue| - 1;
      PassKeeps(cfg, kv, queue[..n], xs[..n]);
      OneRowOn(cfg, kv, PassTxn(cfg, kv, queue[..n], xs[..n]), queue[..n], xs[..n], queue[n], xs[n]);
      assert queue == queue[..n] + [queue[n]] && xs == xs[..n] + [xs[n]];
    }
    DoneMeans(cfg, kv, PassTxn(cfg, kv, queue, xs), queue, xs);
  }

  lemma DoneMeans(cfg: Config, kv: KV, kv': KV, queue: seq<Row>, xs: seq<Sending>)
    requires PassDone(cfg, kv, kv', queue, xs)
    ensures |queue| <= |xs|
    ensures forall i | 0 <= i < |queue| ::
              Stored(kv', queue[i].id) ==
                Some(ProcessedRow(cfg, queue[i], if xs[i].renewed && !xs[i].stopping then xs[i].second else xs[i].first,
                                  xs[i].now))
    ensures forall id: Id | (forall i | 0 <= i < |queue| :: queue[i].id != id) :: Stored(kv', id) == Stored(kv, id)
  {
    hide ProcessedRow;
    forall i | 0 <= i < |queue|
      ensures Stored(kv', queue[i].id) ==
                Some(ProcessedRow(cfg, queue[i], if xs[i].renewed && !xs[i].stopping then xs[i].second else xs[i].first,
                                  xs[i].now))
    {
      assert RowDone(cfg, kv', queue[i], xs[i]);
    }
  }

  lemma NothingDone(cfg: Config, kv: KV, xs: seq<Sending>)
    ensures PassDone(cfg, kv, kv, [], xs)
  {
  }

  lemma OneRowOn(cfg: Config, kv: KV, mid: KV, queue: seq<Row>, xs: seq<Sending>, row: Row, x: Sending)
    requires |queue| == |xs| && PassDone(cfg, kv, mid, queue, xs) && Consistent(mid) && DistinctIds(queue + [row])
    requires Ready(kv, row) && SendingOk(x)
    ensures var kv' := ProcessTxn(cfg, mid, row, Final(x), x.now);
            Consistent(kv') && PassDone(cfg, kv, kv', queue + [row], xs + [x])
  {
    hide Consistent, ProcessTxn, ProcessedRow, Stored, Final, SendingOk;
    forall i | 0 <= i < |queue| ensures queue[i].id != row.id {
      assert (queue + [row])[i] == queue[i] && (queue + [row])[|queue|] == row;
    }
    assert !Attempted(queue, row.id);
    FinalOk(x);
    ProcessKeeps(cfg, mid, row, Final(x), x.now);
    var kv' := ProcessTxn(cfg, mid, row, Final(x), x.now);
    forall i | 0 <= i < |queue + [row]| ensures RowDone(cfg, kv', (queue + [row])[i], (xs + [x])[i]) {
      if i < |queue| { assert RowDone(cfg, mid, queue[i], xs[i]); }
    }
    forall id: Id ensures Attempted(queue + [row], id) || Stored(kv', id) == Stored(kv, id) {
      assert (queue + [row])[|queue|].id == row.id;
      if Attempted(queue, id) {
        var i :| 0 <= i < |queue| && queue[i].id == id;
        assert (queue + [row])[i].id == id;
      }
    }
  }

  lemma FinalOk(x: Sending)
    requires SendingOk(x)
    ensures OutcomeOk(Final(x), x.now)
  {
  }

  /** Rows never tried come first, and in each group those due earlier. */
  predicate InPassOrder(q: seq<Row>) {
    forall i, j | 0 <= i < j < |q| ::
      && (q[j].attempts == 0 ==> q[i].attempts == 0)
      && ((q[j].attempts == 0) == (q[i].attempts == 0) ==>
            q[i].nextAt < q[j].nextAt || (q[i].nextAt == q[j].nextAt && LexLess(q[i].id, q[j].id)))
  }

  lemma PickedInOrder(rows: seq<Row>, q: seq<Row>, a: seq<nat>, b: seq<nat>)
    requires |q| == |a| + |b| && Picks(rows, q[..|a|], a) && Picks(rows, q[|a|..], b)
    requires forall i | 0 <= i < |q| :: i < |a| <==> q[i].attempts == 0
    requires forall i, j | 0 <= i < j < |rows| :: DueBefore(rows[i], rows[j])
    ensures InPassOrder(q)
  {
    hide LexLess;
    forall i, j | 0 <= i < j < |q| && (i < |a| <==> j < |a|) ensures DueBefore(q[i], q[j]) {
      if j < |a| {
        assert q[..|a|][i] == q[i] && q[..|a|][j] == q[j] && a[i] < a[j];
      } else {
        assert q[|a|..][i - |a|] == q[i] && q[|a|..][j - |a|] == q[j] && b[i - |a|] < b[j - |a|];
      }
    }
  }

  lemma QueueInOrder(rows: seq<Row>, dest: Dest)
    requires forall i, j | 0 <= i < j < |rows| :: DueBefore(rows[i], rows[j])
    ensures InPassOrder(Ordered(RowsForDest(rows, dest)))
    ensures var q := Ordered(RowsForDest(rows, dest));
            forall i, j | 0 <= i < j < |q| ::
              && (q[j].attempts == 0 ==> q[i].attempts == 0)
              && ((q[j].attempts == 0) == (q[i].attempts == 0) ==>
                    q[i].nextAt < q[j].nextAt || (q[i].nextAt == q[j].nextAt && LexLess(q[i].id, q[j].id)))
  {
    hide Ordered, RowsForDest, DueBefore, LexLess;
    var a, b := PassIsStablePermutation(rows, dest);
    PickedInOrder(rows, Ordered(RowsForDest(rows, dest)), a, b);
  }

  lemma DueRowIs(kv: KV, dest: Dest, now: int)
    ensures forall row: Row :: IsDueRow(kv, row, dest, now) <==>
              Stored(kv, row.id) == Some(row) && row.dest == dest && row.state == Enqueued && row.nextAt <= now
  {
  }

  lemma FrontInOrder(q: seq<Row>, n: nat)
    requires InPassOrder(q) && n <= |q|
    ensures InPassOrder(q[..n])
  {
    hide LexLess;
  }

  /** The queue of a pass over rows as listed: rows of the one destination, each once, as stored. */
  lemma QueueIs(kv: KV, rows: seq<Row>, dest: Dest, now: int)
    requires forall row: Row :: row in rows <==> Stored(kv, row.id) == Some(row) && Due(kv, row.id, now)
    requires forall i, j | 0 <= i < j < |rows| :: DueBefore(rows[i], rows[j])
    ensures var q := Ordered(RowsForDest(rows, dest));
            && DistinctIds(q)
            && (forall row: Row :: row in q <==> IsDueRow(kv, row, dest, now))
  {
    forall i, j | 0 <= i < j < |rows| ensures rows[i].id != rows[j].id {
      assert rows[i] in rows && rows[j] in rows;
      if rows[i].id == rows[j].id { LexIrreflexive(rows[i].id); }
    }
    var mine, q := RowsForDest(rows, dest), Ordered(RowsForDest(rows, dest));
    DestSubset(rows, dest);
    GroupSubset(mine, true);
    GroupSubset(mine, false);
    var t, u := Group(mine, true), Group(mine, false);
    forall i, j | 0 <= i < j < |q| ensures q[i].id != q[j].id {
      if i < |t| <= j {
        assert q[i] in t && q[j] in u;
        if q[i].id == q[j].id { SameIdSameRow(mine, q[i], q[j]); }
      }
    }
    var a, b := PassIsStablePermutation(rows, dest);
    forall row: Row ensures row in q <==> row in rows && row.dest == dest {
      assert row in q <==> multiset(q)[row] > 0;
      assert row in rows <==> multiset(rows)[row] > 0;
    }
  }

  class Worker {
    const store: Store
    const cfg: Config

    constructor (store: Store, cfg: Config)
      ensures this.store == store && this.cfg == cfg
    {
      this.store, this.cfg := store, cfg;
    }

    /** One row: sent, sent once more if a renewed circuit cut it, and recorded. */
    method ProcessRow(row: Row, x: Sending)
      modifies store
      ensures store.kv == ProcessTxn(cfg, old(store.kv), row, Final(x), x.now)
      ensures store.kv ==
        ProcessTxn(cfg, old(store.kv), row, if x.renewed && !x.stopping then x.second else x.first, x.now)
    {
      var o := x.first;
      if x.renewed && !x.stopping {
        o := x.second;
      }
      if o.Unauthorized? || o.SendFailed? {
        store.HandleSendErr(cfg, row, o, x.now);
        return;
      }
      store.HandleSendOk(cfg, row, o, x.now);
    }

    /** Attempts the rows in turn until the list or the sendings end. */
    method Attempt(rows: seq<Row>, xs: seq<Sending>) returns (n: nat)
      requires store.Valid() && DistinctIds(rows)
      requires forall i | 0 <= i < |rows| :: Ready(store.kv, rows[i])
      requires forall i | 0 <= i < |xs| :: SendingOk(xs[i])
      modifies store
      ensures n == if |rows| < |xs| then |rows| else |xs|
      ensures store.Valid() && PassDone(cfg, old(store.kv), store.kv, rows[..n], xs)
    {
      hide Consistent, ProcessTxn, Ready, PassDone, SendingOk;
      ghost var kv0 := store.kv;
      n := 0;
      while n < |rows| && n < |xs|
        invariant 0 <= n <= |rows| && n <= |xs|
        invariant store.kv == PassTxn(cfg, kv0, rows[..n], xs[..n])
      {
        ProcessRow(rows[n], xs[n]);
        assert rows[..n + 1][..n] == rows[..n] && xs[..n + 1][..n] == xs[..n];
        n := n + 1;
      }
      PassKeeps(cfg, kv0, rows[..n], xs[..n]);
      MoreSendings(cfg, kv0, store.kv, rows[..n], xs, n);
    }

    /** One pass over a destination. With the gate open and the destination not held, its due rows are attempted in
        turn, all of them unless the worker stops before; each attempted row becomes its successor, and nothing else
        changes. */
    method DrainDest(dest: Dest, scan: seq<Key>, now: int, gate: bool, held: bool, xs: seq<Sending>)
      returns (queue: seq<Row>)
      requires store.Valid() && IsScan(store.kv, DuePrefix(), scan) && forall i | 0 <= i < |xs| :: SendingOk(xs[i])
      modifies store
      ensures store.Valid() && PassDone(cfg, old(store.kv), store.kv, queue, xs)
      ensures DistinctIds(queue) && InPassOrder(queue)
      ensures forall row | row in queue ::
        && Stored(old(store.kv), row.id) == Some(row) && row.dest == dest
        && row.state == Enqueued && row.nextAt <= now
      ensures !gate || held ==> queue == []
      ensures gate && !held && |queue| < |xs| ==>
        forall row: Row | Stored(old(store.kv), row.id) == Some(row) && row.dest == dest &&
                          row.state == Enqueued && row.nextAt <= now :: row in queue
    {
      if !gate || held {
        NothingDone(cfg, store.kv, xs);
        return [];
      }
      hide Consistent, PassDone, Ordered, RowsForDest, SendingOk, IsDueRow, IsScan, InPassOrder, Due, DueBefore;
      hide DistinctIds, Ready, LexLess;
      DueRowIs(store.kv, dest, now);
      var rows := store.ListDue(scan, now);
      var mine := FilterDest(rows, dest);
      var ordered := OrderPass(mine);
      QueueIs(store.kv, rows, dest, now);
      QueueInOrder(rows, dest);
      ReadyQueue(store.kv, ordered, dest, now);
      var n := Attempt(ordered, xs);
      queue := ordered[..n];
      FrontInOrder(ordered, n);
      FrontDistinct(ordered, n);
      assert n == |ordered| ==> queue == ordered;
    }
  }

  /** A row of the destination that the store holds, enqueued and due. */
  ghost predicate IsDueRow(kv: KV, row: Row, dest: Dest, now: int) {
    Stored(kv, row.id) == Some(row) && Due(kv, row.id, now) && row.dest == dest
  }

  lemma FrontDistinct(q: seq<Row>, n: nat)
    requires DistinctIds(q) && n <= |q|
    ensures DistinctIds(q[..n])
  {
  }

  lemma MoreSendings(cfg: Config, kv: KV, kv': KV, queue: seq<Row>, xs: seq<Sending>, n: nat)
    requires n == |queue| <= |xs| && PassDone(cfg, kv, kv', queue, xs[..n])
    ensures PassDone(cfg, kv, kv', queue, xs)
  {
    forall i | 0 <= i < |queue|
      ensures RowDone(cfg, kv', queue[i], xs[i])
    {
      assert RowDone(cfg, kv', queue[i], xs[..n][i]);
    }
  }

  lemma ReadyQueue(kv: KV, queue: seq<Row>, dest: Dest, now: int)
    requires forall row: Row :: row in queue <==> IsDueRow(kv, row, dest, now)
    ensures forall i | 0 <= i < |queue| :: Ready(kv, queue[i])
  {
    forall i | 0 <= i < |queue|
      ensures Ready(kv, queue[i])
    {
      assert queue[i] in queue && IsDueRow(kv, queue[i], dest, now);
    }
  }
}
