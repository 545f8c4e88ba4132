/** The peer registry: peer records and the index from onion address to peer, as the transactions change them. */
module RegistryModel {
  import opened Bytes

  type PeerId = Bytes
  type Addr = Bytes

  datatype RetiredAddr = RetiredAddr(address: Addr, expiresAt: int)

  datatype PrevOnion = PrevOnion(address: Addr, privateKey: Bytes, expiresAt: int)

  datatype Peer = Peer(
    id: PeerId,
    known: seq<Addr>,
    myOnionAddr: Addr,
    myOnionKey: Bytes,
    inbound: Bytes,
    outbound: Bytes,
    retiredAt: int,
    retired: seq<RetiredAddr>,
    prevMyOnion: Option<PrevOnion>)

  datatype Reg = Reg(peers: map<PeerId, Peer>, index: map<Addr, PeerId>)

  /** The peer answers to this address: it is known, or retired and still in its grace period. */
  predicate Holds(p: Peer, a: Addr) {
    a in p.known || exists r :: r in p.retired && r.address == a
  }

  ghost function AddrsOf(p: Peer): set<Addr> {
    (set a | a in p.known) + (set r | r in p.retired :: r.address)
  }

  // ---------- transactions ----------

  function RetiredPeer(p: Peer, at: int): Peer {
    p.(retiredAt := at, inbound := [], outbound := [], known := [], myOnionAddr := [], myOnionKey := [],
       retired := [], prevMyOnion := None)
  }

  /** A retired peer keeps its id and nothing that could reach it or be reached with. */
  lemma RetiredPeerIs(p: Peer, at: int)
    ensures RetiredPeer(p, at) == Peer(p.id, [], [], [], [], [], at, [], None)
  {
  }

  predicate Active(reg: Reg, id: PeerId) { id in reg.peers && reg.peers[id].retiredAt == 0 }

  ghost function RetireTxn(reg: Reg, id: PeerId, at: int): Reg {
    if !Active(reg, id) then reg
    else Reg(reg.peers[id := RetiredPeer(reg.peers[id], at)], reg.index - AddrsOf(reg.peers[id]))
  }

  ghost function RemoveTxn(reg: Reg, id: PeerId): Reg {
    if id !in reg.peers then reg
    else Reg(reg.peers - {id}, reg.index - AddrsOf(reg.peers[id]))
  }

  /** The peers an invite pushes out: those the index names for one of its addresses. */
  ghost function Displaced(reg: Reg, p: Peer): set<PeerId> {
    set a | a in p.known && a in reg.index && reg.index[a] != p.id :: reg.index[a]
  }

  /** Several peers retired at once; the order does not matter (RetireOneMore). */
  ghost function RetireAll(reg: Reg, ids: set<PeerId>, at: int): Reg {
    Reg(map id | id in reg.peers ::
          if id in ids && Active(reg, id) then RetiredPeer(reg.peers[id], at) else reg.peers[id],
        reg.index - (set id, a | id in ids && Active(reg, id) && a in AddrsOf(reg.peers[id]) :: a))
  }

  ghost function PutPeer(reg: Reg, p: Peer): Reg {
    Reg(reg.peers[p.id := p], reg.index + map a | a in p.known :: p.id)
  }

  ghost function ImportTxn(reg: Reg, p: Peer, at: int): Reg {
    PutPeer(RetireAll(reg, Displaced(reg, p), at), p)
  }

  function Without(known: seq<Addr>, a: Addr): seq<Addr> {
    if known == [] then []
    else
      var front := Without(known[..|known| - 1], a);
      if known[|known| - 1] != a then front + [known[|known| - 1]] else front
  }

  /** One address is taken out, wherever it stands, and the others keep their order. */
  lemma WithoutNext(x: seq<Addr>, b: Addr, a: Addr)
    ensures Without(x + [b], a) == Without(x, a) + (if b == a then [] else [b])
    ensures Without([], a) == []
  {
    assert (x + [b])[..|x|] == x;
  }

  predicate OverlayApplies(reg: Reg, id: PeerId, a: Addr) {
    Active(reg, id) && !(reg.peers[id].known != [] && reg.peers[id].known[0] == a)
  }

  /** The address moves to the front of the peer's list, or is added there. */
  function OverlayTxn(reg: Reg, id: PeerId, a: Addr): Reg {
    if !OverlayApplies(reg, id, a) then reg
    else
      var p := reg.peers[id];
      Reg(reg.peers[id := p.(known := [a] + Without(p.known, a))], reg.index[a := id])
  }

  /** An active peer has the address in front afterwards, with the others behind it in their order, and the index names
      the peer for it; nothing else changes, and for a retired or unknown peer nothing at all. */
  lemma OverlayIs(reg: Reg, id: PeerId, a: Addr)
    requires id in reg.peers && reg.peers[id].known != [] && reg.peers[id].known[0] == a ==>
      a in reg.index && reg.index[a] == id
    ensures var reg' := OverlayTxn(reg, id, a);
            if id in reg.peers && reg.peers[id].retiredAt == 0 then
              && reg'.peers.Keys == reg.peers.Keys && reg'.index == reg.index[a := id]
              && (forall o | o in reg.peers && o != id :: reg'.peers[o] == reg.peers[o])
              && reg'.peers[id] == reg.peers[id].(known := reg'.peers[id].known)
              && reg'.peers[id].known != [] && reg'.peers[id].known[0] == a
              && (if reg.peers[id].known != [] && reg.peers[id].known[0] == a
                  then reg'.peers[id].known == reg.peers[id].known
                  else reg'.peers[id].known[1..] == Without(reg.peers[id].known, a))
            else reg' == reg
  {
  }

  function RetireAddrs(addrs: seq<Addr>, expiresAt: int): seq<RetiredAddr> {
    seq(|addrs|, i requires 0 <= i < |addrs| => RetiredAddr(addrs[i], expiresAt))
  }

  /** All addresses but one go: into their grace period, or at once when there is none. */
  ghost function CollapseTxn(reg: Reg, id: PeerId, retain: Addr, now: int, grace: nat): Reg {
    if id !in reg.peers || retain !in reg.peers[id].known then reg
    else
      var p := reg.peers[id];
      var drop := Without(p.known, retain);
      if grace > 0 then
        Reg(reg.peers[id := p.(known := [retain], retired := p.retired + RetireAddrs(drop, now + grace))], reg.index)
      else
        Reg(reg.peers[id := p.(known := [retain])], reg.index - (set a | a in drop))
  }

  /** Only the address retained stays known. With a grace period the others are kept until `now + grace`, and the index
      still names the peer for them; without one the index loses them at once. */
  lemma CollapseIs(reg: Reg, id: PeerId, retain: Addr, now: int, grace: nat)
    requires id in reg.peers && retain in reg.peers[id].known
    ensures var reg' := CollapseTxn(reg, id, retain, now, grace);
            var p, drop := reg.peers[id], Without(reg.peers[id].known, retain);
            && reg'.peers == reg.peers[id := p.(known := [retain], retired := reg'.peers[id].retired)]
            && (grace > 0 ==>
                  && reg'.index == reg.index
                  && |reg'.peers[id].retired| == |p.retired| + |drop| && p.retired <= reg'.peers[id].retired
                  && forall i | 0 <= i < |drop| ::
                       reg'.peers[id].retired[|p.retired| + i] == RetiredAddr(drop[i], now + grace))
            && (grace == 0 ==>
                  && reg'.peers[id].retired == p.retired
                  && (forall a :: a in reg'.index <==> a in reg.index && a !in drop)
                  && forall a | a in reg'.index :: reg'.index[a] == reg.index[a])
  {
  }

  function Unexpired(rs: seq<RetiredAddr>, now: int): seq<RetiredAddr> {
    if rs == [] then []
    else
      var front := Unexpired(rs[..|rs| - 1], now);
      if rs[|rs| - 1].expiresAt > now then front + [rs[|rs| - 1]] else front
  }

  ghost function ExpiredAddrs(rs: seq<RetiredAddr>, now: int): set<Addr> {
    set r | r in rs && r.expiresAt <= now :: r.address
  }

  function CountExpired(rs: seq<RetiredAddr>, now: int): nat {
    if rs == [] then 0
    else CountExpired(rs[..|rs| - 1], now) + (if rs[|rs| - 1].expiresAt > now then 0 else 1)
  }

  /** The expired addresses of the listed peers. */
  function ExpiredTotal(peers: map<PeerId, Peer>, ids: seq<PeerId>, now: int): nat {
    if ids == [] then 0
    else
      var id := ids[|ids| - 1];
      ExpiredTotal(peers, ids[..|ids| - 1], now) + (if id in peers then CountExpired(peers[id].retired, now) else 0)
  }

  lemma {:induction false} SplitInTwo(rs: seq<RetiredAddr>, now: int)
    ensures |Unexpired(rs, now)| + CountExpired(rs, now) == |rs|
  {
    if rs != [] { SplitInTwo(rs[..|rs| - 1], now); }
  }

  /** Several peers swept; the order does not matter (SweepOneMore). */
  ghost function SweepAll(reg: Reg, ids: set<PeerId>, now: int): Reg {
    Reg(map id | id in reg.peers ::
          if id in ids then reg.peers[id].(retired := Unexpired(reg.peers[id].retired, now)) else reg.peers[id],
        reg.index - (set id, a | id in ids && id in reg.peers && a in ExpiredAddrs(reg.peers[id].retired, now) :: a))
  }

  ghost function SweepTxn(reg: Reg, id: PeerId, now: int): Reg {
    if id !in reg.peers then reg
    else
      var p := reg.peers[id];
      Reg(reg.peers[id := p.(retired := Unexpired(p.retired, now))], reg.index - ExpiredAddrs(p.retired, now))
  }

  // ---------- index and records agree ----------

  predicate Names(index: map<Addr, PeerId>, a: Addr, id: PeerId) { a in index && index[a] == id }

  /** The index names a peer for an address exactly when that peer's record holds it. */
  ghost predicate IndexAgrees(reg: Reg) {
    forall a: Addr, id: PeerId :: Names(reg.index, a, id) <==> (id in reg.peers && Holds(reg.peers[id], a))
  }

  /** A retired peer holds no address; a known address is not also in its grace period; an address in its grace
      period has one end. */
  ghost predicate PeerOk(id: PeerId, p: Peer) {
    && p.id == id
    && (p.retiredAt != 0 ==> p.known == [] && p.retired == [])
    && (forall r | r in p.retired :: r.address !in p.known)
    && (forall r, r' | r in p.retired && r' in p.retired && r.address == r'.address :: r.expiresAt == r'.expiresAt)
  }

  ghost predicate Inv(reg: Reg) {
    IndexAgrees(reg) && forall id | id in reg.peers :: PeerOk(id, reg.peers[id])
  }

  lemma AddrsAreHeld(p: Peer, a: Addr)
    ensures a in AddrsOf(p) <==> Holds(p, a)
  {
    if Holds(p, a) && a !in p.known { var r :| r in p.retired && r.address == a; assert a in AddrsOf(p); }
  }

  lemma {:induction false} WithoutIs(known: seq<Addr>, a: Addr)
    ensures forall x: Addr :: x in Without(known, a) <==> x in known && x != a
  {
    if known != [] {
      WithoutIs(known[..|known| - 1], a);
      assert known == known[..|known| - 1] + [known[|known| - 1]];
    }
  }

  lemma {:induction false} UnexpiredIs(rs: seq<RetiredAddr>, now: int)
    ensures forall r: RetiredAddr :: r in Unexpired(rs, now) <==> r in rs && r.expiresAt > now
  {
    if rs != [] {
      UnexpiredIs(rs[..|rs| - 1], now);
      assert rs == rs[..|rs| - 1] + [rs[|rs| - 1]];
    }
  }

  /** One record changes, and the index with it. */
  lemma UpdateAgrees(reg: Reg, id: PeerId, p: Peer, index: map<Addr, PeerId>)
    requires IndexAgrees(reg)
    requires forall a: Addr, x: PeerId | x != id :: Names(index, a, x) <==> Names(reg.index, a, x)
    requires forall a: Addr :: Names(index, a, id) <==> Holds(p, a)
    ensures IndexAgrees(Reg(reg.peers[id := p], index))
  {
    hide Holds;
    var reg' := Reg(reg.peers[id := p], index);
    forall a: Addr, x: PeerId
      ensures Names(reg'.index, a, x) <==> (x in reg'.peers && Holds(reg'.peers[x], a))
    {
      assert Names(reg.index, a, x) <==> (x in reg.peers && Holds(reg.peers[x], a));
    }
  }

  lemma NamedIffHeld(reg: Reg, id: PeerId, a: Addr)
    requires IndexAgrees(reg) && id in reg.peers
    ensures Names(reg.index, a, id) <==> Holds(reg.peers[id], a)
  {
    hide Holds;
  }

  lemma RetireKeeps(reg: Reg, id: PeerId, at: int)
    requires Inv(reg)
    ensures Inv(RetireTxn(reg, id, at))
  {
    if Active(reg, id) {
      var p := reg.peers[id];
      var reg' := RetireTxn(reg, id, at);
      forall a: Addr, x: PeerId
        ensures Names(reg'.index, a, x) <==> (x in reg'.peers && Holds(reg'.peers[x], a))
      {
        AddrsAreHeld(p, a);
        assert Names(reg.index, a, x) <==> (x in reg.peers && Holds(reg.peers[x], a));
        assert Names(reg.index, a, id) <==> Holds(p, a);
      }
    }
  }

  lemma RemoveKeeps(reg: Reg, id: PeerId)
    requires Inv(reg)
    ensures Inv(RemoveTxn(reg, id)) && id !in RemoveTxn(reg, id).peers
  {
    if id in reg.peers {
      var p := reg.peers[id];
      var reg' := RemoveTxn(reg, id);
      forall a: Addr, x: PeerId
        ensures Names(reg'.index, a, x) <==> (x in reg'.peers && Holds(reg'.peers[x], a))
      {
        AddrsAreHeld(p, a);
        assert Names(reg.index, a, x) <==> (x in reg.peers && Holds(reg.peers[x], a));
        assert Names(reg.index, a, id) <==> Holds(p, a);
      }
    }
  }

  /** Retiring one peer after others is retiring them together. */
  lemma RetireOneMore(reg: Reg, ids: set<PeerId>, id: PeerId, at: int)
    requires id !in ids
    ensures RetireTxn(RetireAll(reg, ids, at), id, at) == RetireAll(reg, ids + {id}, at)
  {
    var one, all := RetireTxn(RetireAll(reg, ids, at), id, at), RetireAll(reg, ids + {id}, at);
    assert one.peers == all.peers;
    var gone := set x, a | x in ids && Active(reg, x) && a in AddrsOf(reg.peers[x]) :: a;
    var gone' := set x, a | x in ids + {id} && Active(reg, x) && a in AddrsOf(reg.peers[x]) :: a;
    if Active(reg, id) {
      assert gone' == gone + AddrsOf(reg.peers[id]);
      assert one.index == (reg.index - gone) - AddrsOf(reg.peers[id]);
    } else {
      assert gone' == gone;
    }
    assert one.index == all.index;
  }

  lemma RetireNone(reg: Reg, at: int)
    ensures RetireAll(reg, {}, at) == reg
  {
    assert RetireAll(reg, {}, at).peers == reg.peers;
    assert RetireAll(reg, {}, at).index == reg.index;
  }

  lemma {:induction false} RetireAllKeeps(reg: Reg, ids: set<PeerId>, at: int)
    requires Inv(reg)
    ensures Inv(RetireAll(reg, ids, at))
    decreases |ids|
  {
    if ids == {} {
      RetireNone(reg, at);
    } else {
      var id :| id in ids;
      RetireAllKeeps(reg, ids - {id}, at);
      RetireKeeps(RetireAll(reg, ids - {id}, at), id, at);
      RetireOneMore(reg, ids - {id}, id, at);
      assert ids - {id} + {id} == ids;
    }
  }

  /** After the displaced peers are gone the new peer's addresses belong to nobody else. */
  lemma AddressesFreed(reg: Reg, p: Peer, at: int)
    requires Inv(reg)
    ensures var r := RetireAll(reg, Displaced(reg, p), at);
            forall a | a in p.known && a in r.index :: r.index[a] == p.id
    ensures RetireAll(reg, Displaced(reg, p), at).peers.Keys == reg.peers.Keys
    ensures p.id in reg.peers ==> RetireAll(reg, Displaced(reg, p), at).peers[p.id] == reg.peers[p.id]
  {
    var ids := Displaced(reg, p);
    forall a | a in p.known && a in reg.index && reg.index[a] != p.id
      ensures a !in RetireAll(reg, ids, at).index
    {
      var id := reg.index[a];
      assert Names(reg.index, a, id);
      assert id in ids && Holds(reg.peers[id], a);
      AddrsAreHeld(reg.peers[id], a);
      assert PeerOk(id, reg.peers[id]) && Active(reg, id);
    }
  }

  /** Record and index after a peer record is written over whatever was there. */
  lemma PutKeepsIff(reg: Reg, p: Peer)
    requires Inv(reg) && p.retired == [] && p.retiredAt == 0
    requires forall a | a in p.known && a in reg.index :: reg.index[a] == p.id
    ensures Inv(PutPeer(reg, p)) <==> (p.id in reg.peers ==> forall a: Addr | Holds(reg.peers[p.id], a) :: a in p.known)
  {
    hide IndexAgrees;
    var reg' := PutPeer(reg, p);
    if p.id in reg.peers ==> forall a: Addr | Holds(reg.peers[p.id], a) :: a in p.known {
      forall a: Addr ensures Names(reg'.index, a, p.id) <==> Holds(p, a) { NamedIffPresent(reg, p.id, a); }
      UpdateAgrees(reg, p.id, p, reg'.index);
    } else {
      var a: Addr :| Holds(reg.peers[p.id], a) && a !in p.known;
      NamedIffHeld(reg, p.id, a);
      assert a in reg'.index && reg'.index[a] == p.id && !Holds(reg'.peers[p.id], a);
      if IndexAgrees(reg') { NamedIffHeld(reg', p.id, a); }
    }
  }

  lemma NamedIffPresent(reg: Reg, id: PeerId, a: Addr)
    requires IndexAgrees(reg)
    ensures Names(reg.index, a, id) <==> (id in reg.peers && Holds(reg.peers[id], a))
  {
    hide Holds;
  }

  /** What a record added outright needs: its own form is right, none of its known addresses belongs to another peer,
      and any other address it holds, or the record it overwrites held, the other holds too. */
  ghost predicate AddSafe(reg: Reg, p: Peer) {
    && PeerOk(p.id, p)
    && (forall a | a in p.known && a in reg.index :: reg.index[a] == p.id)
    && (forall a: Addr | a !in p.known :: (p.id in reg.peers && Holds(reg.peers[p.id], a)) <==> Holds(p, a))
  }

  /** Adding a record displaces nobody, and keeps index and records together exactly when it is safe in this sense. */
  lemma AddKeepsIff(reg: Reg, p: Peer)
    requires Inv(reg)
    ensures Inv(PutPeer(reg, p)) <==> AddSafe(reg, p)
  {
    hide IndexAgrees, Holds;
    var reg' := PutPeer(reg, p);
    if AddSafe(reg, p) {
      forall a: Addr ensures Names(reg'.index, a, p.id) <==> Holds(p, a) {
        NamedIffPresent(reg, p.id, a);
        KnownIsHeld(p, a);
      }
      forall a: Addr, x: PeerId | x != p.id ensures Names(reg'.index, a, x) <==> Names(reg.index, a, x) {
      }
      UpdateAgrees(reg, p.id, p, reg'.index);
    }
    if Inv(reg') {
      assert PeerOk(p.id, reg'.peers[p.id]);
      forall a | a in p.known && a in reg.index ensures reg.index[a] == p.id {
        NamedIffPresent(reg, reg.index[a], a);
        NamedIffPresent(reg', reg.index[a], a);
      }
      forall a: Addr | a !in p.known ensures (p.id in reg.peers && Holds(reg.peers[p.id], a)) <==> Holds(p, a) {
        NamedIffPresent(reg, p.id, a);
        NamedIffPresent(reg', p.id, a);
      }
    }
  }

  lemma KnownIsHeld(p: Peer, a: Addr)
    ensures a in p.known ==> Holds(p, a)
  {
  }

  /** Importing keeps index and records together exactly when the invite does not overwrite a record that holds
      an address the invite leaves out; a fresh peer id is always fine. Every peer whose address the invite
      takes is retired with all its addresses. */
  lemma ImportKeepsIff(reg: Reg, p: Peer, at: int)
    requires Inv(reg) && p.retired == [] && p.retiredAt == 0
    ensures Inv(ImportTxn(reg, p, at)) <==>
            (p.id in reg.peers ==> forall a: Addr | Holds(reg.peers[p.id], a) :: a in p.known)
  {
    RetireAllKeeps(reg, Displaced(reg, p), at);
    AddressesFreed(reg, p, at);
    PutKeepsIff(RetireAll(reg, Displaced(reg, p), at), p);
  }

  /** The address is the peer's already, or nobody's. */
  ghost predicate OverlaySafe(reg: Reg, id: PeerId, a: Addr) {
    (id in reg.peers && a in reg.peers[id].known) || a !in reg.index
  }

  /** An overlay keeps index and records together exactly for an address that the peer already knows or that no
      peer holds. */
  lemma OverlayKeepsIff(reg: Reg, id: PeerId, a: Addr)
    requires Inv(reg) && OverlayApplies(reg, id, a)
    ensures Inv(OverlayTxn(reg, id, a)) <==> OverlaySafe(reg, id, a)
  {
    var p, reg' := reg.peers[id], OverlayTxn(reg, id, a);
    var p' := reg'.peers[id];
    WithoutIs(p.known, a);
    assert PeerOk(id, p);
    assert p'.known[0] == a;
    if OverlaySafe(reg, id, a) {
      forall x: Addr, y: PeerId
        ensures Names(reg'.index, x, y) <==> (y in reg'.peers && Holds(reg'.peers[y], x))
      {
        assert Names(reg.index, x, y) <==> (y in reg.peers && Holds(reg.peers[y], x));
        assert Names(reg.index, x, id) <==> Holds(p, x);
      }
      forall r | r in p'.retired ensures r.address !in p'.known {
        assert Holds(p, r.address) && Names(reg.index, r.address, id);
      }
    } else {
      var other := reg.index[a];
      assert Names(reg.index, a, other);
      assert other in reg.peers && Holds(reg.peers[other], a);
      if other != id {
        assert reg'.peers[other] == reg.peers[other] && reg'.index[a] == id;
      } else {
        var r :| r in p.retired && r.address == a;
        assert r in p'.retired && a in p'.known;
      }
    }
  }

  /** Why an address in its grace period must not be overlaid by its own peer: index and records still agree at
      first, but the sweep that ends the grace period deletes the index entry of an address the peer now knows. */
  lemma OverlayOfRetiredAddressIsSweptAway(reg: Reg, id: PeerId, r: RetiredAddr, now: int)
    requires Inv(reg) && Active(reg, id) && r in reg.peers[id].retired && r.expiresAt <= now
    ensures var reg1 := OverlayTxn(reg, id, r.address); var reg2 := SweepTxn(reg1, id, now);
            IndexAgrees(reg1) && r.address in reg2.peers[id].known && r.address !in reg2.index
  {
    var p, a := reg.peers[id], r.address;
    assert PeerOk(id, p) && Holds(p, a);
    assert a !in p.known;
    var reg1 := OverlayTxn(reg, id, a);
    WithoutIs(p.known, a);
    assert reg1.peers[id].known[0] == a;
    forall x: Addr, y: PeerId
      ensures Names(reg1.index, x, y) <==> (y in reg1.peers && Holds(reg1.peers[y], x))
    {
      assert Names(reg.index, x, y) <==> (y in reg.peers && Holds(reg.peers[y], x));
      assert Names(reg.index, a, id);
    }
    assert a in ExpiredAddrs(reg1.peers[id].retired, now);
  }

  lemma CollapseKeeps(reg: Reg, id: PeerId, retain: Addr, now: int, grace: nat)
    requires Inv(reg)
    ensures Inv(CollapseTxn(reg, id, retain, now, grace))
  {
    hide IndexAgrees;
    if id in reg.peers && retain in reg.peers[id].known {
      var p := reg.peers[id];
      assert PeerOk(id, p);
      WithoutIs(p.known, retain);
      var reg' := CollapseTxn(reg, id, retain, now, grace);
      if grace > 0 {
        CollapsedPeer(id, p, retain, now + grace);
      }
      forall a: Addr ensures Names(reg'.index, a, id) <==> Holds(reg'.peers[id], a) {
        NamedIffHeld(reg, id, a);
      }
      forall a: Addr, x: PeerId | x != id
        ensures Names(reg'.index, a, x) <==> Names(reg.index, a, x)
      {
        NamedIffHeld(reg, id, a);
      }
      UpdateAgrees(reg, id, reg'.peers[id], reg'.index);
    }
  }

  lemma CollapsedPeer(id: PeerId, p: Peer, retain: Addr, expiresAt: int)
    requires PeerOk(id, p) && retain in p.known
    ensures var p' := p.(known := [retain], retired := p.retired + RetireAddrs(Without(p.known, retain), expiresAt));
            PeerOk(id, p') && forall a: Addr :: Holds(p', a) <==> Holds(p, a)
  {
    WithoutIs(p.known, retain);
    var more := RetireAddrs(Without(p.known, retain), expiresAt);
    var p' := p.(known := [retain], retired := p.retired + more);
    assert forall r | r in more :: r.address in Without(p.known, retain) && r.expiresAt == expiresAt;
    forall a: Addr ensures Holds(p', a) <==> Holds(p, a) {
      if a in p.known && a != retain {
        var d := Without(p.known, retain);
        var k :| 0 <= k < |d| && d[k] == a;
        assert more[k] in p'.retired && more[k].address == a;
      }
      if Holds(p, a) && a !in p.known { var r :| r in p.retired && r.address == a; assert r in p'.retired; }
    }
  }

  lemma SweepKeeps(reg: Reg, id: PeerId, now: int)
    requires Inv(reg)
    ensures Inv(SweepTxn(reg, id, now))
  {
    hide IndexAgrees, Holds;
    if id in reg.peers {
      var p := reg.peers[id];
      assert PeerOk(id, p);
      UnexpiredIs(p.retired, now);
      var reg' := SweepTxn(reg, id, now);
      forall a: Addr ensures Names(reg'.index, a, id) <==> Holds(reg'.peers[id], a) {
        NamedIffHeld(reg, id, a);
        SweptPeer(id, p, a, now);
      }
      forall a: Addr, x: PeerId | x != id ensures Names(reg'.index, a, x) <==> Names(reg.index, a, x) {
        NamedIffHeld(reg, id, a);
        SweptPeer(id, p, a, now);
      }
      UpdateAgrees(reg, id, reg'.peers[id], reg'.index);
    }
  }

  /** Sweeping one more peer is sweeping them together. */
  lemma SweepOneMore(reg: Reg, ids: set<PeerId>, id: PeerId, now: int)
    requires id !in ids
    ensures SweepTxn(SweepAll(reg, ids, now), id, now) == SweepAll(reg, ids + {id}, now)
  {
    hide Unexpired, ExpiredAddrs;
    var one, all := SweepTxn(SweepAll(reg, ids, now), id, now), SweepAll(reg, ids + {id}, now);
    var gone := set x, a | x in ids && x in reg.peers && a in ExpiredAddrs(reg.peers[x].retired, now) :: a;
    var gone' := set x, a | x in ids + {id} && x in reg.peers && a in ExpiredAddrs(reg.peers[x].retired, now) :: a;
    if id in reg.peers {
      assert SweepAll(reg, ids, now).peers[id] == reg.peers[id];
      assert gone' == gone + ExpiredAddrs(reg.peers[id].retired, now);
      assert one.index == (reg.index - gone) - ExpiredAddrs(reg.peers[id].retired, now);
    } else {
      assert gone' == gone;
    }
    assert one.peers == all.peers && one.index == all.index;
  }

  /** What sweeping one more peer removes is what that peer had expired. */
  lemma CountOneMore(reg: Reg, done: set<PeerId>, ids: seq<PeerId>, i: nat, now: int)
    requires i < |ids| && ids[i] !in done
    ensures var reg1, id := SweepAll(reg, done, now), ids[i];
            var reg2 := SweepTxn(reg1, id, now);
            ExpiredTotal(reg.peers, ids[..i + 1], now) == ExpiredTotal(reg.peers, ids[..i], now) +
              (if id in reg1.peers then |reg1.peers[id].retired| - |reg2.peers[id].retired| else 0)
  {
    hide Unexpired, CountExpired, ExpiredAddrs;
    assert ids[..i + 1][..i] == ids[..i];
    if ids[i] in reg.peers { SplitInTwo(reg.peers[ids[i]].retired, now); }
  }

  lemma NoneListed(reg: Reg, ids: seq<PeerId>, now: int)
    ensures ExpiredTotal(reg.peers, ids[..0], now) == 0
  {
  }

  lemma SweepNone(reg: Reg, now: int)
    ensures SweepAll(reg, {}, now) == reg
  {
    assert SweepAll(reg, {}, now).peers == reg.peers;
    assert SweepAll(reg, {}, now).index == reg.index;
  }

  lemma SweptPeer(id: PeerId, p: Peer, a: Addr, now: int)
    requires PeerOk(id, p)
    ensures Holds(p.(retired := Unexpired(p.retired, now)), a) <==> Holds(p, a) && a !in ExpiredAddrs(p.retired, now)
    ensures a in ExpiredAddrs(p.retired, now) ==> Holds(p, a)
  {
    UnexpiredIs(p.retired, now);
    if Holds(p, a) && a !in p.known {
      var r :| r in p.retired && r.address == a;
      if r.expiresAt > now { assert r in Unexpired(p.retired, now); }
    }
  }

  // ---------- runs ----------

  datatype Op =
    | Add(p: Peer)
    | Import(p: Peer, at: int)
    | Overlay(id: PeerId, a: Addr)
    | Collapse(id: PeerId, retain: Addr, now: int, grace: nat)
    | Sweep(id: PeerId, now: int)
    | Retire(id: PeerId, at: int)
    | Remove(id: PeerId)

  ghost predicate OpOk(reg: Reg, op: Op) {
    match op
    case Add(p) => AddSafe(reg, p)
    case Import(p, _) => p.retired == [] && p.retiredAt == 0 && p.id !in reg.peers
    case Overlay(id, a) => OverlaySafe(reg, id, a)
    case _ => true
  }

  ghost function Apply(reg: Reg, op: Op): Reg {
    match op
    case Add(p) => PutPeer(reg, p)
    case Import(p, at) => ImportTxn(reg, p, at)
    case Overlay(id, a) => OverlayTxn(reg, id, a)
    case Collapse(id, retain, now, grace) => CollapseTxn(reg, id, retain, now, grace)
    case Sweep(id, now) => SweepTxn(reg, id, now)
    case Retire(id, at) => RetireTxn(reg, id, at)
    case Remove(id) => RemoveTxn(reg, id)
  }

  ghost predicate IsRun(reg: Reg, ops: seq<Op>)
    decreases |ops|
  {
    ops == [] || (OpOk(reg, ops[0]) && IsRun(Apply(reg, ops[0]), ops[1..]))
  }

  ghost function After(reg: Reg, ops: seq<Op>): Reg
    decreases |ops|
  {
    if ops == [] then reg else After(Apply(reg, ops[0]), ops[1..])
  }

  lemma OpKeeps(reg: Reg, op: Op)
    requires Inv(reg) && OpOk(reg, op)
    ensures Inv(Apply(reg, op))
  {
    match op
    case Add(p) => AddKeepsIff(reg, p);
    case Import(p, at) => ImportKeepsIff(reg, p, at);
    case Overlay(id, a) => if OverlayApplies(reg, id, a) { OverlayKeepsIff(reg, id, a); }
    case Collapse(id, retain, now, grace) => CollapseKeeps(reg, id, retain, now, grace);
    case Sweep(id, now) => SweepKeeps(reg, id, now);
    case Retire(id, at) => RetireKeeps(reg, id, at);
    case Remove(id) => RemoveKeeps(reg, id);
  }

  /** Over every run of these operations the index names a peer for an address exactly when that peer holds it,
      and a retired peer holds none. */
  lemma {:induction false} RunKeeps(reg: Reg, ops: seq<Op>)
    requires Inv(reg) && IsRun(reg, ops)
    ensures Inv(After(reg, ops))
    decreases |ops|
  {
    if ops != [] {
      OpKeeps(reg, ops[0]);
      RunKeeps(Apply(reg, ops[0]), ops[1..]);
    }
  }

  const EMPTY_REG := Reg(map[], map[])

  /** So it does from the empty registry on. */
  lemma RunsFromEmpty(ops: seq<Op>)
    requires IsRun(EMPTY_REG, ops)
    ensures Inv(After(EMPTY_REG, ops))
  {
    RunKeeps(EMPTY_REG, ops);
  }
}
