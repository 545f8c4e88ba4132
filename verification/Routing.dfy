/** The routing table: nodes in buckets by the bit length of their distance, each address at most once. */
module Routing {
  import opened Bytes
  import opened Kademlia

  const BUCKETS := 160

  datatype Node = Node(id: Id, addr: Addr)

  datatype Place = Place(bucket: nat, slot: nat)

  predicate InTable(buckets: seq<seq<Node>>, p: Place) { p.bucket < |buckets| && p.slot < |buckets[p.bucket]| }

  predicate Full(b: seq<Node>) { |b| >= K_BUCKET_SIZE }

  /** Bucket b is for distances from 2^b to below 2^(b+1). */
  predicate LiesIn(self: Id, id: Id, b: nat) { Pow2(b) <= Dist(id, self) < Pow2(b + 1) }

  ghost predicate InOwnBuckets(self: Id, buckets: seq<seq<Node>>) {
    forall b, i | 0 <= b < |buckets| && 0 <= i < |buckets[b]| :: LiesIn(self, buckets[b][i].id, b)
  }

  ghost predicate WellFormed(self: Id, buckets: seq<seq<Node>>, addrIdx: map<Addr, Place>) {
    && |buckets| == BUCKETS
    && (forall b | 0 <= b < BUCKETS :: |buckets[b]| <= K_BUCKET_SIZE)
    && (forall a | a in addrIdx ::
          InTable(buckets, addrIdx[a]) && buckets[addrIdx[a].bucket][addrIdx[a].slot].addr == a)
    && (forall b, i | 0 <= b < BUCKETS && 0 <= i < |buckets[b]| ::
          buckets[b][i].addr in addrIdx && addrIdx[buckets[b][i].addr] == Place(b, i) && buckets[b][i].id != self)
  }

  /** Which id the table has for an address. */
  ghost function Known(buckets: seq<seq<Node>>, addrIdx: map<Addr, Place>): map<Addr, Id> {
    map a | a in addrIdx && InTable(buckets, addrIdx[a]) :: buckets[addrIdx[a].bucket][addrIdx[a].slot].id
  }

  function AllNodes(buckets: seq<seq<Node>>): seq<Node> {
    if buckets == [] then [] else AllNodes(buckets[..|buckets| - 1]) + buckets[|buckets| - 1]
  }

  predicate ByDistance(ns: seq<Node>, target: Id) {
    forall i, j | 0 <= i < j < |ns| :: Dist(ns[i].id, target) <= Dist(ns[j].id, target)
  }

  predicate DistinctAddrs(ns: seq<Node>) { forall i, j | 0 <= i < j < |ns| :: ns[i].addr != ns[j].addr }

  /** Nodes some of whose addresses are known under their ids. */
  ghost predicate FromTable(known: map<Addr, Id>, ns: seq<Node>) {
    forall n | n in ns :: n.addr in known && known[n.addr] == n.id
  }

  /** Nodes of the table, nearest first, as many as asked for or all there are, and no node left out nearer than one
      given. */
  ghost predicate NearestKnown(known: map<Addr, Id>, out: seq<Node>, target: Id, count: nat) {
    && FromTable(known, out) && ByDistance(out, target) && DistinctAddrs(out)
    && |out| == (if |known| < count then |known| else count)
    && (forall a, n | a in known && n in out && Node(known[a], a) !in out ::
          Dist(n.id, target) <= Dist(known[a], target))
  }

  /** The node is known by its address, or could not be taken in: it is the table's own, or its bucket is full. */
  ghost predicate Settled(self: Id, buckets: seq<seq<Node>>, addrIdx: map<Addr, Place>, n: Node) {
    n.addr in addrIdx || n.id == self || exists b :: 0 <= b < |buckets| && LiesIn(self, n.id, b) && Full(buckets[b])
  }

  class RoutingTable {
    const self: Id
    var buckets: seq<seq<Node>>
    var addrIdx: map<Addr, Place>

    ghost predicate Valid()
      reads this`buckets, this`addrIdx
    {
      WellFormed(self, buckets, addrIdx)
    }

    constructor (self: Id)
      ensures Valid() && this.self == self && addrIdx == map[]
    {
      this.self, buckets, addrIdx := self, seq(BUCKETS, _ => []), map[];
    }

    /** One less than the bit length of the distance to the table's own id, which has no bucket. */
    method BucketIndex(id: Id) returns (r: int)
      ensures r == -1 <==> id == self
      ensures r != -1 ==> 0 <= r < BUCKETS && LiesIn(self, id, r)
    {
      hide XorBytes, BitLength, Pow2, Dist;
      var dist := Xor(id, self);
      var bl := BitLen(dist);
      BucketOf(id, self);
      if bl == 0 {
        return -1;
      }
      r := bl - 1;
    }

    /** A known address takes the new id where it is; a new address goes to its bucket if that has room. */
    method AddNode(id: Id, addr: Addr) returns (ok: bool)
      requires Valid()
      modifies this`buckets, this`addrIdx
      ensures Valid()
      ensures Known(buckets, addrIdx) ==
              if ok then old(Known(buckets, addrIdx))[addr := id] else old(Known(buckets, addrIdx))
      ensures ok ==> id != self
      ensures |old(buckets)| == |buckets| == BUCKETS &&
              forall b | 0 <= b < |buckets| :: |old(buckets)[b]| <= |buckets[b]|
      ensures addrIdx.Keys == if ok then old(addrIdx.Keys) + {addr} else old(addrIdx.Keys)
      ensures addr in old(addrIdx) ==> ok == (id != self) && addrIdx == old(addrIdx)
      ensures ok && addr !in old(addrIdx) ==> addr in addrIdx && LiesIn(self, id, addrIdx[addr].bucket)
      ensures old(InOwnBuckets(self, buckets)) ==>
        (InOwnBuckets(self, buckets) <==> (ok ==> LiesIn(self, id, addrIdx[addr].bucket)))
      ensures !ok && id != self ==>
        exists b :: 0 <= b < BUCKETS && LiesIn(self, id, b) && Full(buckets[b]) && |buckets[b]| == 8
    {
      hide LiesIn, InOwnBuckets;
      var idx := BucketIndex(id);
      if idx < 0 {
        return false;
      }
      if addr in addrIdx {
        var p := addrIdx[addr];
        Renamed(self, buckets, addrIdx, addr, id);
        if InOwnBuckets(self, buckets) { RenameKeepsBucketsIff(self, buckets, p, Node(id, addr)); }
        buckets := buckets[p.bucket := buckets[p.bucket][p.slot := Node(id, addr)]];
        return true;
      }
      var b := buckets[idx];
      if |b| < K_BUCKET_SIZE {
        Appended(self, buckets, addrIdx, idx, id, addr);
        if InOwnBuckets(self, buckets) { AppendKeepsBuckets(self, buckets, idx, Node(id, addr)); }
        buckets := buckets[idx := b + [Node(id, addr)]];
        addrIdx := addrIdx[addr := Place(idx, |b|)];
        return true;
      }
      assert Full(buckets[idx]);
      ok := false;
    }

    /** The nearest nodes, nearest first: as many as asked for or all there are, and no node left out is nearer than
        one given. */
    method ClosestNodes(target: Id, count: nat) returns (out: seq<Node>)
      requires Valid()
      ensures NearestKnown(Known(buckets, addrIdx), out, target, count) && Known(buckets, addrIdx).Keys == addrIdx.Keys
      ensures out == [] <==> count == 0 || addrIdx == map[]
    {
      hide WellFormed, ByDistance, Dist;
      var all: seq<Node> := [];
      for b := 0 to |buckets|
        invariant all == AllNodes(buckets[..b])
      {
        assert buckets[..b + 1][..b] == buckets[..b];
        all := all + buckets[b];
      }
      assert buckets[..|buckets|] == buckets;
      var sorted := SortByDistance(all, target);
      Closest(self, buckets, addrIdx, sorted, target, count);
      out := if |sorted| > count then sorted[..count] else sorted;
    }
  }

  /** All nodes by distance, cut after count. */
  lemma Closest(self: Id, buckets: seq<seq<Node>>, addrIdx: map<Addr, Place>, sorted: seq<Node>, target: Id, count: nat)
    requires WellFormed(self, buckets, addrIdx) && multiset(sorted) == multiset(AllNodes(buckets)) &&
             ByDistance(sorted, target)
    ensures var out := if |sorted| > count then sorted[..count] else sorted;
            NearestKnown(Known(buckets, addrIdx), out, target, count) && (out == [] <==> count == 0 || addrIdx == map[])
    ensures Known(buckets, addrIdx).Keys == addrIdx.Keys
  {
    hide WellFormed, ByDistance, Dist, AllNodes, Known, DistinctAddrs;
    TableNodes(self, buckets, addrIdx);
    SameNodes(AllNodes(buckets), sorted);
    assert addrIdx.Keys == set n | n in sorted :: n.addr by {
      forall a | a in addrIdx ensures a in set n | n in sorted :: n.addr {
        assert Node(Known(buckets, addrIdx)[a], a) in sorted;
      }
    }
    CountNodes(sorted, addrIdx.Keys);
    var known := Known(buckets, addrIdx);
    assert |known| == |known.Keys| == |addrIdx.Keys|;
    assert addrIdx.Keys == {} <==> addrIdx == map[];
    NearestOf(sorted, target, count);
  }

  lemma BucketOf(id: Id, self: Id)
    ensures var bl := BitLength(BeValue(XorBytes(id, self)));
            (bl == 0 <==> id == self) && (bl > 0 ==> Pow2(bl - 1) <= Dist(id, self) < Pow2(bl))
  {
    hide XorBytes, Dist;
    var v := BeValue(XorBytes(id, self));
    ByValue(id, self);
    DistIsMetric(id, self, self);
    BitLengthIs(v, 0);
    BitLengthIs(v, BitLength(v));
    if BitLength(v) > 0 { BitLengthIs(v, BitLength(v) - 1); }
  }

  /** Insertion, as a stand-in for the library's sort: some order by distance of the same nodes. */
  method SortByDistance(all: seq<Node>, target: Id) returns (sorted: seq<Node>)
    ensures ByDistance(sorted, target) && multiset(sorted) == multiset(all)
  {
    hide Dist, ByDistance;
    sorted := [];
    SortedNone(target);
    for i := 0 to |all|
      invariant ByDistance(sorted, target) && multiset(sorted) == multiset(all[..i])
    {
      var k := PlaceOf(sorted, all[i], target);
      InsertByDistance(sorted, k, all[i], target);
      assert all[..i + 1] == all[..i] + [all[i]];
      assert sorted == sorted[..k] + sorted[k..];
      sorted := sorted[..k] + [all[i]] + sorted[k..];
    }
    assert all[..|all|] == all;
  }

  method PlaceOf(sorted: seq<Node>, n: Node, target: Id) returns (k: nat)
    ensures k <= |sorted|
    ensures forall j | 0 <= j < k :: Dist(sorted[j].id, target) <= Dist(n.id, target)
    ensures k < |sorted| ==> Dist(n.id, target) < Dist(sorted[k].id, target)
  {
    hide Dist, XorBytes;
    var d := Xor(n.id, target);
    ByValue(n.id, target);
    k := 0;
    while k < |sorted|
      invariant 0 <= k <= |sorted|
      invariant forall j | 0 <= j < k :: Dist(sorted[j].id, target) <= Dist(n.id, target)
    {
      var e := Xor(sorted[k].id, target);
      var before := Less(d, e);
      ByValue(sorted[k].id, target);
      if before {
        return;
      }
      k := k + 1;
    }
  }

  lemma ByValue(id: Id, target: Id)
    ensures Dist(id, target) == BeValue(XorBytes(id, target))
  {
  }

  lemma SortedNone(target: Id)
    ensures ByDistance([], target)
  {
  }

  lemma InsertByDistance(ns: seq<Node>, k: nat, n: Node, target: Id)
    requires ByDistance(ns, target) && k <= |ns|
    requires forall j | 0 <= j < k :: Dist(ns[j].id, target) <= Dist(n.id, target)
    requires k < |ns| ==> Dist(n.id, target) < Dist(ns[k].id, target)
    ensures ByDistance(ns[..k] + [n] + ns[k..], target)
  {
    hide Dist;
  }

  lemma Renamed(self: Id, buckets: seq<seq<Node>>, addrIdx: map<Addr, Place>, addr: Addr, id: Id)
    requires WellFormed(self, buckets, addrIdx) && addr in addrIdx && id != self
    ensures var p := addrIdx[addr];
            var buckets' := buckets[p.bucket := buckets[p.bucket][p.slot := Node(id, addr)]];
            WellFormed(self, buckets', addrIdx) && Known(buckets', addrIdx) == Known(buckets, addrIdx)[addr := id]
  {
  }

  /** A node stays in the bucket it is renamed in, so all lie in their own buckets afterwards exactly when that is
      the bucket of the new id. */
  lemma RenameKeepsBucketsIff(self: Id, buckets: seq<seq<Node>>, p: Place, n: Node)
    requires InOwnBuckets(self, buckets) && InTable(buckets, p)
    ensures InOwnBuckets(self, buckets[p.bucket := buckets[p.bucket][p.slot := n]]) <==> LiesIn(self, n.id, p.bucket)
  {
    hide LiesIn;
    var buckets' := buckets[p.bucket := buckets[p.bucket][p.slot := n]];
    assert buckets'[p.bucket][p.slot] == n;
  }

  lemma AppendKeepsBuckets(self: Id, buckets: seq<seq<Node>>, b: nat, n: Node)
    requires InOwnBuckets(self, buckets) && b < |buckets| && LiesIn(self, n.id, b)
    ensures InOwnBuckets(self, buckets[b := buckets[b] + [n]])
  {
    hide LiesIn;
  }

  lemma SmallNumbers(n: nat)
    requires n > 0
    ensures Pow256(n) > 2 && XorNat(1, 0) == 1 && XorNat(2, 0) == 2
  {
    assert XorNat(0, 0) == 0 && XorNat(1, 0) == 2 * XorNat(0, 0) + 1 && XorNat(2, 0) == 2 * XorNat(1, 0);
  }

  /** The id that is this number. */
  function NumberId(k: nat): Id { BigEndian(ID_LEN, k) }

  lemma DistOfNumber(k: nat)
    requires k == 1 || k == 2
    ensures NumberId(k) != NumberId(0) && Dist(NumberId(k), NumberId(0)) == k
  {
    hide BigEndian, BeValue, XorBytes, XorNat, Pow256;
    SmallNumbers(ID_LEN);
    BeRoundTrip(ID_LEN, k);
    BeRoundTrip(ID_LEN, 0);
    XorIsXorNat(NumberId(k), NumberId(0));
  }

  lemma NumberLiesIn(k: nat)
    requires k == 1 || k == 2
    ensures forall b: nat :: LiesIn(NumberId(0), NumberId(k), b) <==> b == k - 1
  {
    hide NumberId, Dist;
    DistOfNumber(k);
    forall b: nat ensures Pow2(b) <= k < Pow2(b + 1) <==> b == k - 1 {
      assert b > 1 ==> Pow2(b) == 2 * (2 * Pow2(b - 2));
    }
  }

  lemma EmptyTable(self: Id, buckets: seq<seq<Node>>, addrIdx: map<Addr, Place>)
    requires WellFormed(self, buckets, addrIdx) && addrIdx == map[]
    ensures InOwnBuckets(self, buckets) && forall b | 0 <= b < BUCKETS :: !Full(buckets[b])
  {
    hide LiesIn;
    assert forall b | 0 <= b < BUCKETS && 0 < |buckets[b]| :: buckets[b][0].addr in addrIdx;
  }

  /** The node at distance 1 is known, and its address comes back with the id at distance 2. */
  method MoveMisplacesNode(addr: Addr) returns (table: RoutingTable)
    ensures fresh(table) && table.Valid() && !InOwnBuckets(table.self, table.buckets)
  {
    hide NumberId, InOwnBuckets, LiesIn, WellFormed, Full;
    DistOfNumber(1);
    DistOfNumber(2);
    NumberLiesIn(1);
    NumberLiesIn(2);
    table := new RoutingTable(NumberId(0));
    EmptyTable(table.self, table.buckets, table.addrIdx);
    var ok := table.AddNode(NumberId(1), addr);
    if !ok {
      assert table.addrIdx == map[];
      EmptyTable(table.self, table.buckets, table.addrIdx);
      assert false;
    }
    assert table.addrIdx[addr].bucket == 0;
    ok := table.AddNode(NumberId(2), addr);
  }

  lemma Appended(self: Id, buckets: seq<seq<Node>>, addrIdx: map<Addr, Place>, idx: nat, id: Id, addr: Addr)
    requires WellFormed(self, buckets, addrIdx) && addr !in addrIdx && id != self
    requires idx < BUCKETS && |buckets[idx]| < K_BUCKET_SIZE
    ensures var buckets' := buckets[idx := buckets[idx] + [Node(id, addr)]];
            var addrIdx' := addrIdx[addr := Place(idx, |buckets[idx]|)];
            WellFormed(self, buckets', addrIdx') && Known(buckets', addrIdx') == Known(buckets, addrIdx)[addr := id]
  {
    var buckets' := buckets[idx := buckets[idx] + [Node(id, addr)]];
    var addrIdx' := addrIdx[addr := Place(idx, |buckets[idx]|)];
    assert forall a | a in addrIdx ::
        addrIdx'[a] == addrIdx[a] && InTable(buckets', addrIdx[a]) &&
        buckets'[addrIdx[a].bucket][addrIdx[a].slot] == buckets[addrIdx[a].bucket][addrIdx[a].slot];
    assert WellFormed(self, buckets', addrIdx');
  }

  lemma {:induction false} AllNodesAre(buckets: seq<seq<Node>>)
    ensures forall n :: n in AllNodes(buckets) <==> exists b :: 0 <= b < |buckets| && n in buckets[b]
  {
    if buckets != [] {
      var front := buckets[..|buckets| - 1];
      AllNodesAre(front);
      forall n ensures n in AllNodes(buckets) <==> exists b :: 0 <= b < |buckets| && n in buckets[b] {
        if exists b :: 0 <= b < |buckets| && n in buckets[b] {
          var b :| 0 <= b < |buckets| && n in buckets[b];
          if b < |front| { assert n in front[b]; }
        }
        if n in AllNodes(front) {
          var b :| 0 <= b < |front| && n in front[b];
          assert n in buckets[b];
        }
      }
    }
  }

  lemma {:induction false} AllDistinct(buckets: seq<seq<Node>>, addrIdx: map<Addr, Place>)
    requires forall b, i | 0 <= b < |buckets| && 0 <= i < |buckets[b]| ::
               buckets[b][i].addr in addrIdx && addrIdx[buckets[b][i].addr] == Place(b, i)
    ensures DistinctAddrs(AllNodes(buckets))
  {
    if buckets != [] {
      var n := |buckets| - 1;
      AllDistinct(buckets[..n], addrIdx);
      AllNodesAre(buckets[..n]);
      var front, last := AllNodes(buckets[..n]), buckets[n];
      forall i, j | 0 <= i < |front| && 0 <= j < |last| ensures front[i].addr != last[j].addr {
        assert front[i] in front;
        var b :| 0 <= b < n && front[i] in buckets[..n][b];
        var k :| 0 <= k < |buckets[b]| && buckets[b][k] == front[i];
        assert addrIdx[front[i].addr].bucket == b && addrIdx[last[j].addr].bucket == n;
      }
    }
  }

  lemma TableNodes(self: Id, buckets: seq<seq<Node>>, addrIdx: map<Addr, Place>)
    requires WellFormed(self, buckets, addrIdx)
    ensures DistinctAddrs(AllNodes(buckets)) && FromTable(Known(buckets, addrIdx), AllNodes(buckets))
    ensures forall a | a in Known(buckets, addrIdx) :: Node(Known(buckets, addrIdx)[a], a) in AllNodes(buckets)
    ensures Known(buckets, addrIdx).Keys == addrIdx.Keys
  {
    AllDistinct(buckets, addrIdx);
    AllNodesAre(buckets);
    var known, all := Known(buckets, addrIdx), AllNodes(buckets);
    forall n | n in all ensures n.addr in known && known[n.addr] == n.id {
      var b :| 0 <= b < |buckets| && n in buckets[b];
      var i :| 0 <= i < |buckets[b]| && buckets[b][i] == n;
    }
    forall a | a in known ensures Node(known[a], a) in all {
      var p := addrIdx[a];
      assert buckets[p.bucket][p.slot] in buckets[p.bucket];
    }
  }

  /** The same nodes in another order. */
  lemma SameNodes(a: seq<Node>, b: seq<Node>)
    requires multiset(a) == multiset(b) && DistinctAddrs(a)
    ensures DistinctAddrs(b) && forall n :: n in a <==> n in b
  {
    forall n ensures n in a <==> n in b { assert n in multiset(a) <==> n in multiset(b); }
    AtMostOnce(a);
    forall i, j | 0 <= i < j < |b| ensures b[i].addr != b[j].addr {
      assert b[i] in a && b[j] in a;
      OnceCounted(b, i, j);
    }
  }

  lemma {:induction false} AtMostOnce(a: seq<Node>)
    requires DistinctAddrs(a)
    ensures forall n :: multiset(a)[n] <= 1
    ensures forall m, n | m in a && n in a && m.addr == n.addr :: m == n
  {
    if a != [] {
      var front := a[..|a| - 1];
      AtMostOnce(front);
      assert a == front + [a[|a| - 1]];
      assert a[|a| - 1] !in front;
    }
  }

  lemma OnceCounted(b: seq<Node>, i: nat, j: nat)
    requires i < j < |b| && multiset(b)[b[i]] <= 1
    ensures b[i] != b[j]
  {
    assert b == b[..i] + [b[i]] + b[i + 1..j] + [b[j]] + b[j + 1..];
  }

  lemma CountNodes(ns: seq<Node>, addrs: set<Addr>)
    requires DistinctAddrs(ns) && addrs == set n | n in ns :: n.addr
    ensures |ns| == |addrs|
  {
    CountBySet(ns);
  }

  lemma {:induction false} CountBySet(ns: seq<Node>)
    requires DistinctAddrs(ns)
    ensures |set n | n in ns :: n.addr| == |ns|
  {
    if ns != [] {
      var front, last := ns[..|ns| - 1], ns[|ns| - 1];
      CountBySet(front);
      assert (set n | n in ns :: n.addr) == (set n | n in front :: n.addr) + {last.addr} by {
        assert ns == front + [last];
      }
      assert last.addr !in (set n | n in front :: n.addr);
    }
  }

  /** Cut after count: what stays is not farther than what goes. */
  lemma NearestOf(ns: seq<Node>, target: Id, count: nat)
    requires ByDistance(ns, target)
    ensures var out := if |ns| > count then ns[..count] else ns;
            ByDistance(out, target) && (DistinctAddrs(ns) ==> DistinctAddrs(out)) && (forall n | n in out :: n in ns) &&
            forall m, n | m in ns && m !in out && n in out :: Dist(n.id, target) <= Dist(m.id, target)
  {
    hide Dist;
    var out := if |ns| > count then ns[..count] else ns;
    forall m, n | m in ns && m !in out && n in out ensures Dist(n.id, target) <= Dist(m.id, target) {
      var i :| 0 <= i < |ns| && ns[i] == m;
      var j :| 0 <= j < |out| && out[j] == n;
      assert forall k | 0 <= k < |out| :: out[k] == ns[k] && out[k] != m;
      assert ns[j] == n && j < i;
    }
  }
}
