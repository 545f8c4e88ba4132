/** A lookup: rounds of queries to the nearest candidates, and the routing table it starts from. */
module Lookup {
  import opened Bytes
  import opened Kademlia
  import opened Candidates
  import Routing

  const ALPHA := 15
  const MAX_ROUNDS := 20

  /** A value whose key and signature the asker has checked. */
  datatype Item = Item(value: Bytes, seqNo: int)

  /** An answer: the token, the nodes it names, and the item in it that passed the checks, if any. */
  datatype Reply = NoAnswer | Reply(token: Bytes, nodes: seq<Routing.Node>, item: Option<Item>)

  datatype GetResult = GetResult(value: Option<Bytes>, seqNo: int, tokens: map<Addr, Bytes>)

  datatype Asked = Asked(id: Id, addr: Addr, reply: Reply)

  datatype Stop = NoCandidates | Exhausted | Settled | OutOfRounds

  // ---------- what the answers add up to ----------

  function WithToken(res: GetResult, addr: Addr, token: Bytes): GetResult {
    if token != [] then res.(tokens := res.tokens[addr := token]) else res
  }

  function WithItem(res: GetResult, item: Option<Item>): GetResult {
    if item.Some? && (item.value.seqNo > res.seqNo || res.value.None?) then
      res.(value := Some(item.value.value), seqNo := item.value.seqNo)
    else res
  }

  function Absorb(res: GetResult, a: Asked): GetResult {
    match a.reply
    case NoAnswer => res
    case Reply(token, _, item) => WithItem(WithToken(res, a.addr, token), item)
  }

  /** The result after the answers in the order they came. */
  function Gather(log: seq<Asked>): GetResult {
    if log == [] then GetResult(None, 0, map[]) else Absorb(Gather(log[..|log| - 1]), log[|log| - 1])
  }

  predicate Offers(a: Asked, item: Item) { a.reply.Reply? && a.reply.item == Some(item) }

  /** The lookup gives the checked item with the highest sequence number of all that came, and gives one whenever
      one came; of several with that number the first. */
  lemma {:induction false} BestItemWins(log: seq<Asked>)
    ensures var res := Gather(log);
            && (res.value.Some? ==>
                  exists k :: 0 <= k < |log| && Offers(log[k], Item(res.value.value, res.seqNo)) && FirstWith(log, k))
            && (forall a, item | a in log && Offers(a, item) :: res.value.Some? && item.seqNo <= res.seqNo)
  {
    if log != [] {
      var n := |log| - 1;
      var front, last := log[..n], log[n];
      BestItemWins(front);
      assert log == front + [last];
      var was, res := Gather(front), Gather(log);
      if res.value.Some? {
        if was.value == res.value && was.seqNo == res.seqNo && was.value.Some? {
          var k :| 0 <= k < |front| && Offers(front[k], Item(was.value.value, was.seqNo)) && FirstWith(front, k);
          assert FirstWith(log, k);
        } else {
          forall j | 0 <= j < n && log[j].reply.Reply? && log[j].reply.item.Some?
            ensures log[j].reply.item.value.seqNo < res.seqNo
          {
            assert log[j] in front && Offers(log[j], log[j].reply.item.value);
          }
          assert Offers(last, Item(res.value.value, res.seqNo)) && FirstWith(log, n);
        }
      }
    }
  }

  /** No answer before this one brought a number as high. */
  predicate FirstWith(log: seq<Asked>, k: nat) {
    k < |log| && log[k].reply.Reply? && log[k].reply.item.Some? &&
    forall j | 0 <= j < k && log[j].reply.Reply? && log[j].reply.item.Some? ::
      log[j].reply.item.value.seqNo < log[k].reply.item.value.seqNo
  }

  /** Answer `k` is the last one from this address that gave a token. */
  predicate LastToken(log: seq<Asked>, addr: Addr, k: nat) {
    && k < |log| && log[k].reply.Reply? && log[k].addr == addr && log[k].reply.token != []
    && forall j | k < j < |log| && log[j].reply.Reply? && log[j].addr == addr :: log[j].reply.token == []
  }

  ghost predicate GaveLast(log: seq<Asked>, addr: Addr, token: Bytes) {
    exists k: nat :: LastToken(log, addr, k) && log[k].reply.token == token
  }

  lemma LastStays(log: seq<Asked>, last: Asked, addr: Addr, token: Bytes)
    ensures last.reply.Reply? && last.addr == addr && last.reply.token == token && token != [] ==>
      GaveLast(log + [last], addr, token)
    ensures GaveLast(log, addr, token) && (last.reply.Reply? && last.addr == addr ==> last.reply.token == []) ==>
      GaveLast(log + [last], addr, token)
  {
    var all := log + [last];
    assert all[|log|] == last;
    if last.reply.Reply? && last.addr == addr && last.reply.token == token && token != [] {
      assert LastToken(all, addr, |log|);
    } else if GaveLast(log, addr, token) && (last.reply.Reply? && last.addr == addr ==> last.reply.token == []) {
      var k: nat :| LastToken(log, addr, k) && log[k].reply.token == token;
      assert all[k] == log[k] && LastToken(all, addr, k);
    }
  }

  /** A put goes to just the addresses that answered with a token, each with the last token it gave. */
  lemma {:induction false} TokensAreGranted(log: seq<Asked>)
    ensures forall addr | addr in Gather(log).tokens :: GaveLast(log, addr, Gather(log).tokens[addr])
    ensures forall a | a in log && a.reply.Reply? && a.reply.token != [] :: a.addr in Gather(log).tokens
  {
    hide GaveLast;
    if log != [] {
      var front, last := log[..|log| - 1], log[|log| - 1];
      TokensAreGranted(front);
      assert log == front + [last];
      var was, res := Gather(front), Gather(log);
      forall addr | addr in res.tokens ensures GaveLast(log, addr, res.tokens[addr]) {
        LastStays(front, last, addr, res.tokens[addr]);
      }
    }
  }

  // ---------- who has been asked ----------

  predicate Once(log: seq<Asked>) { forall i, j | 0 <= i < j < |log| :: log[i].id != log[j].id }

  /** As many ids were asked as there are answers. */
  lemma {:induction false} OnceIs(log: seq<Asked>)
    ensures Once(log) <==> |LogIds(log)| == |log|
    ensures |LogIds(log)| <= |log|
  {
    if log == [] {
      assert LogIds(log) == {};
    } else {
      var n := |log| - 1;
      OnceIs(log[..n]);
      assert log == log[..n] + [log[n]];
      assert LogIds(log) == LogIds(log[..n]) + {log[n].id};
      assert Once(log) <==> Once(log[..n]) && log[n].id !in LogIds(log[..n]);
    }
  }

  /** The candidates marked as asked are those with an answer on the log or a query under way. */
  ghost predicate MarksAgree(cs: seq<Candidate>, ids: set<Id>) { forall c | c in cs :: c.queried == (c.id in ids) }

  function LogIds(log: seq<Asked>): set<Id> { set a | a in log :: a.id }

  lemma InsertMarks(was: seq<Candidate>, k: int, c: Candidate, now: seq<Candidate>, ids: set<Id>)
    requires MarksAgree(was, ids) && Inserted(was, k, c, now) && !c.queried && c.id !in ids
    ensures MarksAgree(now, ids)
  {
  }

  lemma PickMarks(cs: seq<Candidate>, n: nat, ids: set<Id>, target: Id)
    requires Sorted(cs, target) && MarksAgree(cs, ids)
    ensures var picks := Nearest(cs, n);
            MarksAgree(Marked(cs, picks), ids + PickIds(picks)) && PickIds(picks) !! ids && |picks| <= n &&
            (forall i, j | 0 <= i < j < |picks| :: picks[i].id != picks[j].id) &&
            (picks == [] && n > 0 ==> forall c | c in cs :: c.queried)
  {
    hide Dist;
    var picks := Nearest(cs, n);
    NearestIs(cs, n, target);
    UnqueriedIs(cs);
    var ms := Marked(cs, picks);
    forall m | m in ms ensures m.queried == (m.id in ids + PickIds(picks)) {
      var i :| 0 <= i < |ms| && ms[i] == m;
      assert cs[i] in cs;
      if m.id in PickIds(picks) {
        var p :| p in picks && p.id == m.id;
        SortedDistinct(cs, target, p, cs[i]);
      }
    }
  }

  function PickIds(picks: seq<Candidate>): set<Id> { set p | p in picks :: p.id }

  function NodeIds(nodes: seq<Routing.Node>): set<Id> { set n | n in nodes :: n.id }

  function NodeAddrs(nodes: seq<Routing.Node>): set<Addr> { set n | n in nodes :: n.addr }

  function ReplyNodes(r: Reply): set<Id> { if r.Reply? then NodeIds(r.nodes) else {} }

  /** Every id that an answer on the log names. */
  function LogNodes(log: seq<Asked>): set<Id> {
    if log == [] then {} else LogNodes(log[..|log| - 1]) + ReplyNodes(log[|log| - 1].reply)
  }

  // ---------- rounds ----------

  /** Every id the lookup has met. */
  function Met(start: seq<Routing.Node>, log: seq<Asked>): set<Id> { NodeIds(start) + LogNodes(log) }

  /** Round `k` asks the nearest ids not asked before, fifteen or all there are, and each of them once. */
  ghost predicate RoundAsks(target: Id, met: set<Id>, log0: seq<Asked>, log: seq<Asked>, k: nat,
                            net: (nat, Id) -> Reply)
  {
    && log0 <= log && |log| <= |log0| + ALPHA
    && (forall j | |log0| <= j < |log| ::
          log[j].id in met && log[j].id !in LogIds(log0) && log[j].reply == net(k, log[j].id))
    && (forall id | id in met && id !in LogIds(log) ::
          |log| == |log0| + ALPHA && forall j | |log0| <= j < |log| :: Dist(log[j].id, target) < Dist(id, target))
  }

  /** One of `b` is nearer than all of `a`. */
  ghost predicate Nearer(target: Id, a: set<Id>, b: set<Id>) {
    exists id :: id in b && forall o | o in a :: Dist(id, target) < Dist(o, target)
  }

  /** A round settles the lookup: it met nobody nearer, and there are tokens enough, or any and few were asked. */
  ghost predicate Settles(target: Id, start: seq<Routing.Node>, log0: seq<Asked>, log: seq<Asked>) {
    && !Nearer(target, Met(start, log0), Met(start, log))
    && (|Gather(log).tokens| >= K_BUCKET_SIZE || (|Gather(log).tokens| >= 1 && |log| - |log0| < ALPHA / 2))
  }

  /** `logs[k]` is what was asked before round `k`; every round asks somebody, and only the last may settle it. */
  ghost predicate Rounds(target: Id, start: seq<Routing.Node>, net: (nat, Id) -> Reply, logs: seq<seq<Asked>>) {
    && |logs| > 0 && logs[0] == []
    && (forall k | 0 <= k < |logs| - 1 ::
          |logs[k]| < |logs[k + 1]| && RoundAsks(target, Met(start, logs[k]), logs[k], logs[k + 1], k, net))
    && (forall k | 0 <= k < |logs| - 2 :: !Settles(target, start, logs[k], logs[k + 1]))
  }

  lemma NextRound(target: Id, start: seq<Routing.Node>, net: (nat, Id) -> Reply, logs: seq<seq<Asked>>, log: seq<Asked>)
    requires Rounds(target, start, net, logs)
    requires var last := logs[|logs| - 1];
             |last| < |log| && RoundAsks(target, Met(start, last), last, log, |logs| - 1, net)
    requires |logs| > 1 ==> !Settles(target, start, logs[|logs| - 2], logs[|logs| - 1])
    ensures Rounds(target, start, net, logs + [log])
  {
    hide RoundAsks, Settles, Met;
    var next := logs + [log];
    forall k | 0 <= k < |next| - 1
      ensures |next[k]| < |next[k + 1]| && RoundAsks(target, Met(start, next[k]), next[k], next[k + 1], k, net)
    {
      if k < |logs| - 1 { assert next[k] == logs[k] && next[k + 1] == logs[k + 1]; }
    }
    forall k | 0 <= k < |next| - 2 ensures !Settles(target, start, next[k], next[k + 1]) {
      assert next[k] == logs[k] && next[k + 1] == logs[k + 1];
    }
  }

  lemma NoRounds(target: Id, start: seq<Routing.Node>, net: (nat, Id) -> Reply)
    ensures Rounds(target, start, net, [[]])
  {
  }

  lemma SettledIs(target: Id, start: seq<Routing.Node>, log0: seq<Asked>, log: seq<Asked>)
    ensures Settles(target, start, log0, log) <==>
      && !Nearer(target, NodeIds(start) + LogNodes(log0), NodeIds(start) + LogNodes(log))
      && (|Gather(log).tokens| >= K_BUCKET_SIZE || (|Gather(log).tokens| >= 1 && |log| - |log0| < ALPHA / 2))
  {
  }

  /** The picks of a round are the nearest ids not asked. */
  lemma PicksNearest(byId: map<Id, Addr>, cs: seq<Candidate>, closest: Id, hasAny: bool, target: Id, log0: seq<Asked>,
                     id: Id)
    requires WellFormed(target, byId, cs, closest, hasAny) && MarksAgree(cs, LogIds(log0))
    requires id in byId && id !in LogIds(log0) + PickIds(Nearest(cs, ALPHA))
    ensures var picks := Nearest(cs, ALPHA);
            |picks| == ALPHA && forall p | p in PickIds(picks) :: Dist(p, target) < Dist(id, target)
  {
    hide Dist;
    NearestIs(cs, ALPHA, target);
    assert Has(cs, id);
    var c :| c in cs && c.id == id;
  }

  /** Nobody left out is nearer than a pick, and nobody at all is left out when there are fewer. */
  ghost predicate BestPicks(target: Id, met: set<Id>, asked: set<Id>, picks: seq<Candidate>) {
    && (forall p | p in PickIds(picks) :: p in met && p !in asked)
    && (forall id | id in met && id !in asked + PickIds(picks) ::
          |picks| == ALPHA && forall p | p in PickIds(picks) :: Dist(p, target) < Dist(id, target))
  }

  lemma PicksAreNearest(byId: map<Id, Addr>, cs: seq<Candidate>, closest: Id, hasAny: bool, target: Id,
                        log0: seq<Asked>)
    requires WellFormed(target, byId, cs, closest, hasAny) && MarksAgree(cs, LogIds(log0))
    ensures BestPicks(target, byId.Keys, LogIds(log0), Nearest(cs, ALPHA))
  {
    hide Dist, LogIds, Nearest;
    NearestIs(cs, ALPHA, target);
    var picks := Nearest(cs, ALPHA);
    forall id | id in byId.Keys && id !in LogIds(log0) + PickIds(picks)
      ensures |picks| == ALPHA && forall p | p in PickIds(picks) :: Dist(p, target) < Dist(id, target)
    {
      PicksNearest(byId, cs, closest, hasAny, target, log0, id);
    }
    forall p | p in PickIds(picks) ensures p in byId.Keys && p !in LogIds(log0) {
      var c :| c in picks && c.id == p;
    }
  }

  lemma AsksPicks(target: Id, met: set<Id>, picks: seq<Candidate>, log0: seq<Asked>, log: seq<Asked>, k: nat,
                  net: (nat, Id) -> Reply)
    requires BestPicks(target, met, LogIds(log0), picks) && log0 <= log && |log| == |log0| + |picks| && |picks| <= ALPHA
    requires LogIds(log) == LogIds(log0) + PickIds(picks)
    requires forall j | |log0| <= j < |log| :: log[j].id in PickIds(picks) && log[j].reply == net(k, log[j].id)
    ensures RoundAsks(target, met, log0, log, k, net)
  {
    hide Dist, LogIds, PickIds;
  }

  lemma AsksNobody(target: Id, met: set<Id>, log0: seq<Asked>, k: nat, net: (nat, Id) -> Reply)
    requires BestPicks(target, met, LogIds(log0), [])
    ensures RoundAsks(target, met, log0, log0, k, net)
  {
    hide Dist, LogIds;
    NoPicks();
  }

  lemma HasSome(target: Id, byId: map<Id, Addr>, cs: seq<Candidate>, closest: Id, hasAny: bool, picks: seq<Candidate>)
    requires WellFormed(target, byId, cs, closest, hasAny) && PickIds(picks) <= byId.Keys && picks != []
    ensures hasAny && byId.Keys != {}
  {
    assert picks[0].id in PickIds(picks);
    assert Has(cs, picks[0].id);
  }

  lemma HasMore(target: Id, met: set<Id>, byId: map<Id, Addr>, cs: seq<Candidate>, closest: Id, hasAny: bool)
    requires WellFormed(target, byId, cs, closest, hasAny) && met <= byId.Keys && met != {}
    ensures hasAny
  {
    var id :| id in met;
    assert Has(cs, id);
  }

  /** The least distance shrinks exactly when somebody nearer than all before was met. */
  lemma CloserIff(target: Id, byId: map<Id, Addr>, cs: seq<Candidate>, closest: Id,
                  byId': map<Id, Addr>, cs': seq<Candidate>, closest': Id)
    requires WellFormed(target, byId, cs, closest, true) && WellFormed(target, byId', cs', closest', true)
    ensures BeValue(closest') < BeValue(closest) <==> Nearer(target, byId.Keys, byId'.Keys)
  {
    hide Dist;
    DistIs(cs[0].id, target);
    DistIs(cs'[0].id, target);
    FrontIsNearest(target, byId, cs, closest);
    FrontIsNearest(target, byId', cs', closest');
    if Nearer(target, byId.Keys, byId'.Keys) {
      var id :| id in byId'.Keys && forall o | o in byId.Keys :: Dist(id, target) < Dist(o, target);
      assert cs[0].id in byId.Keys;
    }
  }

  lemma FrontIsNearest(target: Id, byId: map<Id, Addr>, cs: seq<Candidate>, closest: Id)
    requires WellFormed(target, byId, cs, closest, true)
    ensures cs != [] && cs[0].id in byId && forall id | id in byId :: Dist(cs[0].id, target) <= Dist(id, target)
  {
    hide Dist;
    assert cs[0] in cs;
    forall id | id in byId ensures Dist(cs[0].id, target) <= Dist(id, target) {
      assert Has(cs, id);
      var i :| 0 <= i < |cs| && cs[i].id == id;
    }
  }

  // ---------- the lookup ----------

  /** A node becomes a candidate not asked yet, unless it is one already. */
  method AddCandidate(cand: CandidateSet, n: Routing.Node, ghost ids: set<Id>) returns (added: bool)
    requires cand.Valid() && MarksAgree(cand.sorted, ids) && ids <= cand.byId.Keys
    modifies cand`byId, cand`sorted, cand`closest, cand`hasAny
    ensures cand.Valid() && MarksAgree(cand.sorted, ids) && ids <= cand.byId.Keys
    ensures cand.byId.Keys == old(cand.byId.Keys) + {n.id} && added == (n.id !in old(cand.byId))
  {
    hide MarksAgree, WellFormed;
    ghost var was := cand.sorted;
    added := cand.Add(n.id, n.addr);
    if added {
      ghost var c := Candidate(n.id, n.addr, false);
      ghost var k :| Inserted(was, k, c, cand.sorted);
      InsertMarks(was, k, c, cand.sorted, ids);
    }
  }

  /** The nodes a lookup starts from become its candidates. */
  method AddNodes(cand: CandidateSet, nodes: seq<Routing.Node>)
    requires cand.Valid() && MarksAgree(cand.sorted, {})
    modifies cand`byId, cand`sorted, cand`closest, cand`hasAny
    ensures cand.Valid() && MarksAgree(cand.sorted, {}) && cand.byId.Keys == old(cand.byId.Keys) + NodeIds(nodes)
  {
    hide MarksAgree, WellFormed;
    for i := 0 to |nodes|
      invariant cand.Valid() && MarksAgree(cand.sorted, {}) &&
                cand.byId.Keys == old(cand.byId.Keys) + NodeIds(nodes[..i])
    {
      assert nodes[..i + 1] == nodes[..i] + [nodes[i]];
      var added := AddCandidate(cand, nodes[i], {});
    }
    assert nodes[..|nodes|] == nodes;
  }

  /** The first node of an answer with an id not met before. */
  ghost predicate FirstNew(met: set<Id>, nodes: seq<Routing.Node>, i: nat)
    requires i < |nodes|
  {
    nodes[i].id !in met + NodeIds(nodes[..i])
  }

  /** Of the first `k` nodes every one that was new is settled. */
  ghost predicate NewSettled(self: Id, buckets: seq<seq<Routing.Node>>, addrIdx: map<Addr, Routing.Place>, met: set<Id>,
                             nodes: seq<Routing.Node>, k: nat)
  {
    forall i | 0 <= i < k && i < |nodes| && FirstNew(met, nodes, i) :: Routing.Settled(self, buckets, addrIdx, nodes[i])
  }

  /** No node leaves the table. */
  ghost predicate Fuller(buckets: seq<seq<Routing.Node>>, addrIdx: map<Addr, Routing.Place>,
                         buckets': seq<seq<Routing.Node>>, addrIdx': map<Addr, Routing.Place>)
  {
    && addrIdx.Keys <= addrIdx'.Keys && |buckets| == |buckets'|
    && forall b | 0 <= b < |buckets| :: |buckets[b]| <= |buckets'[b]|
  }

  lemma SettleOneMore(self: Id, buckets: seq<seq<Routing.Node>>, addrIdx: map<Addr, Routing.Place>,
                      buckets': seq<seq<Routing.Node>>, addrIdx': map<Addr, Routing.Place>, met: set<Id>,
                      nodes: seq<Routing.Node>, k: nat)
    requires NewSettled(self, buckets, addrIdx, met, nodes, k) && k < |nodes|
    requires Fuller(buckets, addrIdx, buckets', addrIdx')
    requires nodes[k].id !in met + NodeIds(nodes[..k]) ==> Routing.Settled(self, buckets', addrIdx', nodes[k])
    ensures NewSettled(self, buckets', addrIdx', met, nodes, k + 1)
  {
    hide NodeIds;
    forall i | 0 <= i < k && FirstNew(met, nodes, i) ensures Routing.Settled(self, buckets', addrIdx', nodes[i]) {
      StaySettled(self, buckets, addrIdx, buckets', addrIdx', nodes[i]);
    }
  }

  lemma StaySettled(self: Id, buckets: seq<seq<Routing.Node>>, addrIdx: map<Addr, Routing.Place>,
                    buckets': seq<seq<Routing.Node>>, addrIdx': map<Addr, Routing.Place>, n: Routing.Node)
    requires Routing.Settled(self, buckets, addrIdx, n) && Fuller(buckets, addrIdx, buckets', addrIdx')
    ensures Routing.Settled(self, buckets', addrIdx', n)
  {
    if n.addr !in addrIdx' && n.id != self {
      var b :| 0 <= b < |buckets| && Routing.LiesIn(self, n.id, b) && Routing.Full(buckets[b]);
      assert Routing.Full(buckets'[b]);
    }
  }

  /** A node becomes a candidate, and if it is a new one it is offered to the routing table. */
  method LearnOne(cand: CandidateSet, table: Routing.RoutingTable, n: Routing.Node, ghost ids: set<Id>)
    requires cand.Valid() && table.Valid() && MarksAgree(cand.sorted, ids) && ids <= cand.byId.Keys
    modifies cand`byId, cand`sorted, cand`closest, cand`hasAny, table`buckets, table`addrIdx
    ensures cand.Valid() && table.Valid() && MarksAgree(cand.sorted, ids) && ids <= cand.byId.Keys
    ensures cand.byId.Keys == old(cand.byId.Keys) + {n.id}
    ensures Fuller(old(table.buckets), old(table.addrIdx), table.buckets, table.addrIdx)
    ensures table.addrIdx.Keys <= old(table.addrIdx.Keys) + {n.addr}
    ensures n.id !in old(cand.byId) ==> Routing.Settled(table.self, table.buckets, table.addrIdx, n)
    ensures n.id in old(cand.byId) ==> table.buckets == old(table.buckets) && table.addrIdx == old(table.addrIdx)
  {
    hide MarksAgree, WellFormed, Routing.WellFormed, Routing.Known, Routing.InOwnBuckets, Routing.LiesIn, Routing.Full;
    var added := AddCandidate(cand, n, ids);
    if added {
      var ok := table.AddNode(n.id, n.addr);
    }
  }

  /** The nodes an answer names become candidates, and every new one is offered to the routing table: afterwards its
      address is known there, or there was no room for it. */
  method Learn(cand: CandidateSet, table: Routing.RoutingTable, nodes: seq<Routing.Node>, ghost ids: set<Id>)
    requires cand.Valid() && table.Valid() && MarksAgree(cand.sorted, ids) && ids <= cand.byId.Keys
    modifies cand`byId, cand`sorted, cand`closest, cand`hasAny, table`buckets, table`addrIdx
    ensures cand.Valid() && table.Valid() && MarksAgree(cand.sorted, ids) && ids <= cand.byId.Keys
    ensures cand.byId.Keys == old(cand.byId.Keys) + NodeIds(nodes)
    ensures old(table.addrIdx.Keys) <= table.addrIdx.Keys <= old(table.addrIdx.Keys) + NodeAddrs(nodes)
    ensures forall i | 0 <= i < |nodes| && nodes[i].id !in old(cand.byId.Keys) + NodeIds(nodes[..i]) ::
              Routing.Settled(table.self, table.buckets, table.addrIdx, nodes[i])
  {
    hide MarksAgree, WellFormed, Routing.WellFormed, Routing.Settled, NewSettled;
    ghost var met := cand.byId.Keys;
    NoneSettled(table.self, table.buckets, table.addrIdx, met, nodes);
    for i := 0 to |nodes|
      invariant cand.Valid() && table.Valid() && MarksAgree(cand.sorted, ids) && ids <= cand.byId.Keys
      invariant cand.byId.Keys == met + NodeIds(nodes[..i])
      invariant old(table.addrIdx.Keys) <= table.addrIdx.Keys <= old(table.addrIdx.Keys) + NodeAddrs(nodes[..i])
      invariant NewSettled(table.self, table.buckets, table.addrIdx, met, nodes, i)
    {
      assert nodes[..i + 1] == nodes[..i] + [nodes[i]];
      ghost var buckets0, addrIdx0 := table.buckets, table.addrIdx;
      LearnOne(cand, table, nodes[i], ids);
      SettleOneMore(table.self, buckets0, addrIdx0, table.buckets, table.addrIdx, met, nodes, i);
    }
    assert nodes[..|nodes|] == nodes;
    AllSettled(table.self, table.buckets, table.addrIdx, met, nodes);
  }

  lemma NoneSettled(self: Id, buckets: seq<seq<Routing.Node>>, addrIdx: map<Addr, Routing.Place>, met: set<Id>,
                    nodes: seq<Routing.Node>)
    ensures NewSettled(self, buckets, addrIdx, met, nodes, 0) && met + NodeIds(nodes[..0]) == met
  {
  }

  lemma AllSettled(self: Id, buckets: seq<seq<Routing.Node>>, addrIdx: map<Addr, Routing.Place>, met: set<Id>,
                   nodes: seq<Routing.Node>)
    requires NewSettled(self, buckets, addrIdx, met, nodes, |nodes|)
    ensures forall i | 0 <= i < |nodes| && nodes[i].id !in met + NodeIds(nodes[..i]) ::
              Routing.Settled(self, buckets, addrIdx, nodes[i])
  {
    hide NodeIds;
    forall i | 0 <= i < |nodes| && nodes[i].id !in met + NodeIds(nodes[..i])
      ensures Routing.Settled(self, buckets, addrIdx, nodes[i])
    {
      assert FirstNew(met, nodes, i);
    }
  }

  /** One round: every pick is asked, and the answers are taken in the order they happen to come. */
  method AskRound(cand: CandidateSet, table: Routing.RoutingTable, picks: seq<Candidate>, round: nat,
                  net: (nat, Id) -> Reply, res0: GetResult, ghost log0: seq<Asked>)
    returns (res: GetResult, ghost log: seq<Asked>)
    requires table.Valid() && cand.Valid() && MarksAgree(cand.sorted, LogIds(log0) + PickIds(picks))
    requires LogIds(log0) + PickIds(picks) <= cand.byId.Keys && LogIds(log0) !! PickIds(picks)
    requires Once(log0) && res0 == Gather(log0) && forall i, j | 0 <= i < j < |picks| :: picks[i].id != picks[j].id
    requires LogNodes(log0) <= cand.byId.Keys
    modifies cand`byId, cand`sorted, cand`closest, cand`hasAny, table`buckets, table`addrIdx
    ensures table.Valid() && old(table.addrIdx.Keys) <= table.addrIdx.Keys
    ensures cand.Valid() && MarksAgree(cand.sorted, LogIds(log)) && LogIds(log) <= cand.byId.Keys
    ensures Once(log) && res == Gather(log) && log0 <= log && |log| == |log0| + |picks|
    ensures LogIds(log) == LogIds(log0) + PickIds(picks) && cand.byId.Keys == old(cand.byId.Keys) + LogNodes(log)
    ensures forall j | |log0| <= j < |log| :: log[j].id in PickIds(picks) && log[j].reply == net(round, log[j].id)
  {
    hide MarksAgree, WellFormed, Routing.WellFormed, Gather, Once, LogIds, PickIds, LogNodes, NodeIds;
    res, log := res0, log0;
    var left := picks;
    assert LogIds(log) + PickIds(left) == LogIds(log0) + PickIds(picks);
    while left != []
      invariant table.Valid() && old(table.addrIdx.Keys) <= table.addrIdx.Keys
      invariant cand.Valid() && MarksAgree(cand.sorted, LogIds(log0) + PickIds(picks))
      invariant LogIds(log) + PickIds(left) == LogIds(log0) + PickIds(picks) <= cand.byId.Keys
      invariant LogIds(log) !! PickIds(left) && DistinctPicks(left)
      invariant cand.byId.Keys == old(cand.byId.Keys) + LogNodes(log)
      invariant Once(log) && res == Gather(log) && log0 <= log && |log| + |left| == |log0| + |picks|
      invariant PickIds(left) <= PickIds(picks)
      invariant forall j | |log0| <= j < |log| :: log[j].id in PickIds(picks) && log[j].reply == net(round, log[j].id)
      decreases |left|
    {
      var k :| 0 <= k < |left|;
      var p := left[k];
      PickOut(left, k);
      var reply := net(round, p.id);
      ghost var a := Asked(p.id, p.addr, reply);
      TakeAnswer(log, left, k, a);
      log := log + [a];
      left := left[..k] + left[k + 1..];
      if reply.Reply? {
        if reply.token != [] {
          res := res.(tokens := res.tokens[p.addr := reply.token]);
        }
        Learn(cand, table, reply.nodes, LogIds(log0) + PickIds(picks));
        if reply.item.Some? {
          var item := reply.item.value;
          if item.seqNo > res.seqNo || res.value.None? {
            res := res.(value := Some(item.value), seqNo := item.seqNo);
          }
        }
      }
    }
    NoPicks();
    assert LogIds(log) == LogIds(log0) + PickIds(picks);
  }

  predicate DistinctPicks(picks: seq<Candidate>) { forall i, j | 0 <= i < j < |picks| :: picks[i].id != picks[j].id }

  lemma NoPicks()
    ensures PickIds([]) == {}
  {
  }

  /** One pick moves from those outstanding to the log. */
  lemma TakeAnswer(log: seq<Asked>, left: seq<Candidate>, k: nat, a: Asked)
    requires k < |left| && a.id == left[k].id && DistinctPicks(left) && Once(log) && LogIds(log) !! PickIds(left)
    ensures var rest := left[..k] + left[k + 1..];
            && LogIds(log + [a]) + PickIds(rest) == LogIds(log) + PickIds(left)
            && LogIds(log + [a]) !! PickIds(rest) && DistinctPicks(rest) && Once(log + [a])
            && |rest| == |left| - 1
    ensures Gather(log + [a]) == Absorb(Gather(log), a) && LogNodes(log + [a]) == LogNodes(log) + ReplyNodes(a.reply)
  {
    hide Gather, LogNodes, LogIds, PickIds, DistinctPicks, Once;
    PickOut(left, k);
    LogOn(log, a);
  }

  lemma PickOut(left: seq<Candidate>, k: nat)
    requires k < |left| && DistinctPicks(left)
    ensures var rest := left[..k] + left[k + 1..];
            && PickIds(left) == PickIds(rest) + {left[k].id} && left[k].id !in PickIds(rest)
            && DistinctPicks(rest) && |rest| == |left| - 1
  {
    var rest := left[..k] + left[k + 1..];
    forall j | 0 <= j < |rest| ensures rest[j] == left[if j < k then j else j + 1] { }
    assert left == left[..k] + [left[k]] + left[k + 1..];
    assert forall p: Candidate :: p in left <==> p in rest || p == left[k];
  }

  lemma LogOn(log: seq<Asked>, a: Asked)
    ensures LogIds(log + [a]) == LogIds(log) + {a.id}
    ensures a.id !in LogIds(log) && Once(log) ==> Once(log + [a])
    ensures Gather(log + [a]) == Absorb(Gather(log), a) && LogNodes(log + [a]) == LogNodes(log) + ReplyNodes(a.reply)
  {
    hide Absorb, NodeIds;
    assert (log + [a])[..|log|] == log;
    forall i | 0 <= i < |log| && a.id !in LogIds(log) ensures log[i].id != a.id { assert log[i] in log; }
  }

  /** Starts from the nearest nodes of the routing table and asks round by round until nobody is left to ask, the
      answers have settled, or twenty rounds are over. No id is ever asked twice, and each round asks at most
      fifteen. */
  method IterativeGet(table: Routing.RoutingTable, target: Id, net: (nat, Id) -> Reply)
    returns (res: GetResult, why: Stop, cand: CandidateSet, ghost start: seq<Routing.Node>,
             ghost logs: seq<seq<Asked>>, ghost log: seq<Asked>)
    requires table.Valid()
    modifies table`buckets, table`addrIdx
    ensures table.Valid() && old(table.addrIdx.Keys) <= table.addrIdx.Keys
    ensures Routing.NearestKnown(old(Routing.Known(table.buckets, table.addrIdx)), start, target, 3 * K_BUCKET_SIZE)
    ensures fresh(cand) && cand.Valid() && cand.target == target
    ensures why == NoCandidates <==> old(table.addrIdx) == map[]
    ensures res == Gather(log) && Once(log) && |log| <= ALPHA * MAX_ROUNDS
    ensures MarksAgree(cand.sorted, LogIds(log)) && LogIds(log) <= cand.byId.Keys
    ensures cand.byId.Keys == NodeIds(start) + LogNodes(log)
    ensures why == Exhausted ==> forall c | c in cand.sorted :: c.queried
    ensures Rounds(target, start, net, logs) && logs[|logs| - 1] == log && |logs| <= MAX_ROUNDS + 1
    ensures why == Settled <==> |logs| > 1 && Settles(target, start, logs[|logs| - 2], log)
    ensures why == OutOfRounds ==> |logs| == MAX_ROUNDS + 1
  {
    hide MarksAgree, WellFormed, Routing.WellFormed, Routing.NearestKnown, Gather, Once, LogIds, NodeIds, LogNodes;
    hide RoundAsks, Nearer, Rounds, Settles;
    EmptyLog();
    cand, start := Begin(table, target);
    res, log, logs := GetResult(None, 0, map[]), [], [[]];
    NoRounds(target, start, net);
    if |cand.sorted| == 0 {
      return res, NoCandidates, cand, start, logs, log;
    }
    for round := 0 to MAX_ROUNDS
      invariant table.Valid() && old(table.addrIdx.Keys) <= table.addrIdx.Keys
      invariant cand.Valid() && cand.byId.Keys == NodeIds(start) + LogNodes(log)
      invariant MarksAgree(cand.sorted, LogIds(log)) && LogIds(log) <= cand.byId.Keys
      invariant res == Gather(log) && Once(log) && |log| <= ALPHA * round
      invariant |logs| == round + 1 && logs[round] == log && Rounds(target, start, net, logs)
      invariant round > 0 ==> !Settles(target, start, logs[round - 1], log)
    {
      var stop: Option<Stop>;
      ghost var before := log;
      res, log, stop := Round(cand, table, round, net, res, log);
      LogNodesGrow(before, log);
      UnionGrows(NodeIds(start), LogNodes(before), LogNodes(log));
      SettledIs(target, start, before, log);
      if |log| > |before| {
        NextRound(target, start, net, logs, log);
        logs := logs + [log];
      }
      if stop.Some? {
        return res, stop.value, cand, start, logs, log;
      }
    }
    why := OutOfRounds;
  }

  /** The nearest known nodes are the first candidates. */
  method Begin(table: Routing.RoutingTable, target: Id) returns (cand: CandidateSet, ghost start: seq<Routing.Node>)
    requires table.Valid()
    ensures Routing.NearestKnown(Routing.Known(table.buckets, table.addrIdx), start, target, 3 * K_BUCKET_SIZE)
    ensures fresh(cand) && cand.Valid() && cand.target == target && MarksAgree(cand.sorted, {})
    ensures cand.byId.Keys == NodeIds(start)
    ensures cand.sorted == [] <==> table.addrIdx == map[]
  {
    hide MarksAgree, WellFormed, Routing.WellFormed, Routing.NearestKnown, NodeIds;
    cand := new CandidateSet(target);
    EmptyLog();
    var nodes := table.ClosestNodes(target, 3 * K_BUCKET_SIZE);
    start := nodes;
    NoNodes(nodes);
    AddNodes(cand, nodes);
    Emptiness(cand.target, cand.byId, cand.sorted, cand.closest, cand.hasAny);
  }

  /** Picks, asks, and decides whether the lookup goes on: it stops when nobody is left to ask, or when a round
      brought no nearer candidate and there are tokens enough, or any and few were asked. */
  method Round(cand: CandidateSet, table: Routing.RoutingTable, round: nat, net: (nat, Id) -> Reply, res0: GetResult,
               ghost log0: seq<Asked>)
    returns (res: GetResult, ghost log: seq<Asked>, stop: Option<Stop>)
    requires table.Valid() && cand.Valid() && MarksAgree(cand.sorted, LogIds(log0)) && LogIds(log0) <= cand.byId.Keys
    requires Once(log0) && res0 == Gather(log0) && LogNodes(log0) <= cand.byId.Keys
    modifies cand`byId, cand`sorted, cand`closest, cand`hasAny, table`buckets, table`addrIdx
    ensures table.Valid() && old(table.addrIdx.Keys) <= table.addrIdx.Keys
    ensures cand.Valid() && MarksAgree(cand.sorted, LogIds(log)) && LogIds(log) <= cand.byId.Keys
    ensures Once(log) && res == Gather(log) && log0 <= log && |log| <= |log0| + ALPHA
    ensures cand.byId.Keys == old(cand.byId.Keys) + LogNodes(log)
    ensures stop == Some(Exhausted) <==> |log| == |log0|
    ensures stop == Some(Exhausted) ==> forall c | c in cand.sorted :: c.queried
    ensures RoundAsks(cand.target, old(cand.byId.Keys), log0, log, round, net)
    ensures stop == Some(Settled) <==>
      |log| > |log0| && !Nearer(cand.target, old(cand.byId.Keys), cand.byId.Keys) &&
      (|res.tokens| >= K_BUCKET_SIZE || (|res.tokens| >= 1 && |log| - |log0| < ALPHA / 2))
    ensures stop.Some? ==> stop.value.Exhausted? || stop.value.Settled?
  {
    hide MarksAgree, WellFormed, Routing.WellFormed, Gather, Once, LogIds, PickIds, Nearest, Marked, LogNodes;
    hide RoundAsks, Nearer, Dist;
    ghost var byId0, cs0, closest0 := cand.byId, cand.sorted, cand.closest;
    PicksAreNearest(cand.byId, cand.sorted, cand.closest, cand.hasAny, cand.target, log0);
    IsSorted(cand.target, cand.byId, cand.sorted, cand.closest, cand.hasAny);
    PickMarks(cand.sorted, ALPHA, LogIds(log0), cand.target);
    PicksKnown(cand.byId, cand.sorted, cand.closest, cand.hasAny, ALPHA, cand.target);
    var picks := cand.PickUnqueried(ALPHA);
    if |picks| == 0 {
      NoPicks();
      assert picks == [] && LogIds(log0) + {} == LogIds(log0);
      AsksNobody(cand.target, cand.byId.Keys, log0, round, net);
      return res0, log0, Some(Exhausted);
    }
    var closestBefore := cand.closest;
    res, log := AskRound(cand, table, picks, round, net, res0, log0);
    var newCloser := Less(cand.closest, closestBefore);
    AsksPicks(cand.target, byId0.Keys, picks, log0, log, round, net);
    HasSome(cand.target, byId0, cs0, closest0, old(cand.hasAny), picks);
    HasMore(cand.target, byId0.Keys, cand.byId, cand.sorted, cand.closest, cand.hasAny);
    CloserIff(cand.target, byId0, cs0, closest0, cand.byId, cand.sorted, cand.closest);
    if !newCloser && |res.tokens| >= K_BUCKET_SIZE {
      stop := Some(Settled);
    } else if !newCloser && |res.tokens| >= 1 && |picks| < ALPHA / 2 {
      stop := Some(Settled);
    } else {
      stop := None;
    }
  }

  lemma {:induction false} LogNodesGrow(log: seq<Asked>, more: seq<Asked>)
    requires log <= more
    ensures LogNodes(log) <= LogNodes(more)
    decreases |more|
  {
    if log != more {
      assert log <= more[..|more| - 1];
      LogNodesGrow(log, more[..|more| - 1]);
    }
  }

  lemma UnionGrows(a: set<Id>, b: set<Id>, c: set<Id>)
    requires b <= c
    ensures a + b + c == a + c
  {
  }

  lemma NoNodes(nodes: seq<Routing.Node>)
    ensures nodes == [] <==> NodeIds(nodes) == {}
  {
    if nodes != [] { assert nodes[0].id in NodeIds(nodes); }
  }

  lemma EmptyLog()
    ensures Gather([]) == GetResult(None, 0, map[]) && LogNodes([]) == {} && Once([]) && LogIds([]) == {} &&
            MarksAgree([], {})
  {
  }

  lemma Emptiness(target: Id, byId: map<Id, Addr>, cs: seq<Candidate>, closest: Id, hasAny: bool)
    requires WellFormed(target, byId, cs, closest, hasAny)
    ensures cs == [] <==> byId.Keys == {}
  {
    if byId.Keys != {} {
      var id :| id in byId;
      assert Has(cs, id);
    }
    if cs != [] { assert cs[0] in cs && cs[0].id in byId.Keys; }
  }

  lemma PicksKnown(byId: map<Id, Addr>, cs: seq<Candidate>, closest: Id, hasAny: bool, n: nat, target: Id)
    requires WellFormed(target, byId, cs, closest, hasAny)
    ensures PickIds(Nearest(cs, n)) <= byId.Keys
    ensures Nearest(cs, n) == [] && n > 0 ==> forall c | c in Marked(cs, []) :: c.queried
  {
    NearestIs(cs, n, target);
    UnqueriedIs(cs);
    forall c | c in Marked(cs, []) ensures Nearest(cs, n) == [] && n > 0 ==> c.queried {
      var i :| 0 <= i < |cs| && Marked(cs, [])[i] == c;
      assert cs[i] in cs && c == cs[i];
    }
  }

  // ---------- storing what was looked up ----------

  datatype PutOutcome = NoTokens | BadSignature | AllRejected(asked: nat) | Stored(count: nat)

  function Accepting(tokens: map<Addr, Bytes>, addrs: set<Addr>, takes: (Addr, Bytes) -> bool): set<Addr> {
    set a | a in addrs && a in tokens && takes(a, tokens[a])
  }

  /** Sends the item once to every address that gave a token, with that token, and counts those that take it. Without
      tokens, or for an item that does not verify, nothing is sent. */
  method IterativePut(tokens: map<Addr, Bytes>, verified: bool, takes: (Addr, Bytes) -> bool)
    returns (r: PutOutcome, ghost sent: seq<(Addr, Bytes)>)
    ensures r == if tokens == map[] then NoTokens else if !verified then BadSignature
                 else if Accepting(tokens, tokens.Keys, takes) == {} then AllRejected(|tokens|)
                 else Stored(|Accepting(tokens, tokens.Keys, takes)|)
    ensures if r.NoTokens? || r.BadSignature? then sent == [] else
      (forall a, t :: (a, t) in sent <==> a in tokens && tokens[a] == t) && |sent| == |tokens|
  {
    hide Accepting;
    sent := [];
    AcceptNone(tokens, takes);
    if |tokens| == 0 {
      return NoTokens, [];
    }
    if !verified {
      return BadSignature, [];
    }
    var success := 0;
    var left := tokens.Keys;
    assert tokens.Keys - left == {};
    while left != {}
      invariant left <= tokens.Keys && success == |Accepting(tokens, tokens.Keys - left, takes)|
      invariant forall a, t :: (a, t) in sent <==> a in tokens.Keys - left && tokens[a] == t
      invariant |sent| + |left| == |tokens|
      decreases left
    {
      var a :| a in left;
      ghost var done := tokens.Keys - left;
      assert tokens.Keys - (left - {a}) == done + {a};
      AcceptOne(tokens, done, a, takes);
      sent := sent + [(a, tokens[a])];
      if takes(a, tokens[a]) {
        success := success + 1;
      }
      left := left - {a};
    }
    assert tokens.Keys - left == tokens.Keys;
    r := if success == 0 then AllRejected(|tokens|) else Stored(success);
  }

  lemma AcceptNone(tokens: map<Addr, Bytes>, takes: (Addr, Bytes) -> bool)
    ensures Accepting(tokens, {}, takes) == {}
  {
  }

  lemma AcceptOne(tokens: map<Addr, Bytes>, done: set<Addr>, a: Addr, takes: (Addr, Bytes) -> bool)
    requires a in tokens && a !in done
    ensures |Accepting(tokens, done + {a}, takes)| ==
            |Accepting(tokens, done, takes)| + if takes(a, tokens[a]) then 1 else 0
  {
    assert Accepting(tokens, done + {a}, takes) ==
           Accepting(tokens, done, takes) + if takes(a, tokens[a]) then {a} else {};
  }
}
