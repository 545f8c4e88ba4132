/** The registry's operations, each one transaction over the stored records and index keys. */
module Registry {
  import opened Bytes
  import opened RegistryModel

  datatype Outcome = Done | NotFound | Refused

  datatype Invite = Invite(peerId: PeerId, addresses: seq<Addr>, inbound: Bytes, outbound: Bytes,
                           myOnionAddr: Addr, myOnionKey: Bytes)

  const SECRET_LEN := 32
  const DEFAULT_COLLAPSE_GRACE := 120

  function InvitedPeer(inv: Invite): Peer {
    Peer(inv.peerId, inv.addresses, inv.myOnionAddr, inv.myOnionKey, inv.inbound, inv.outbound, 0, [], None)
  }

  predicate InviteOk(inv: Invite) { inv.peerId != [] && |inv.inbound| == SECRET_LEN && |inv.outbound| == SECRET_LEN }

  function IdSet(ids: seq<PeerId>): set<PeerId> { set id | id in ids }

  predicate PeerValid(p: Peer) { p.id != [] && |p.inbound| == SECRET_LEN && |p.outbound| == SECRET_LEN }

  function NonEmpty(a: Addr): set<Addr> { if a == [] then {} else {a} }

  /** The addresses a peer's own hidden service answers to: its present one and the one before it. */
  function OwnOnions(p: Peer): set<Addr> {
    NonEmpty(p.myOnionAddr) + if p.prevMyOnion.Some? then NonEmpty(p.prevMyOnion.value.address) else {}
  }

  /** Every onion of the old record is still recorded or is handed back for deletion. */
  predicate NoOnionLost(p: Peer, p': Peer, address: Addr, gone: Addr) {
    OwnOnions(p) + {address} == OwnOnions(p') + NonEmpty(gone)
  }

  /** The onions are those recorded that are not empty; none is lost when what was recorded, with the new one, is
      what is recorded now and what is handed back. */
  lemma OnionsAre(p: Peer, p': Peer, address: Addr, gone: Addr)
    ensures forall a: Addr :: a in OwnOnions(p) <==>
              a != [] && (a == p.myOnionAddr || (p.prevMyOnion.Some? && a == p.prevMyOnion.value.address))
    ensures NoOnionLost(p, p', address, gone) <==>
      forall a: Addr :: a in OwnOnions(p) || a == address <==> a in OwnOnions(p') || (a == gone && a != [])
  {
    assert NoOnionLost(p, p', address, gone) <==>
      forall a: Addr :: a in OwnOnions(p) + {address} <==> a in OwnOnions(p') + NonEmpty(gone);
  }

  class Registry {
    var peers: map<PeerId, Peer>
    var index: map<Addr, PeerId>
    const configuredGrace: int

    ghost function Rep(): Reg
      reads this`peers, this`index
    {
      Reg(peers, index)
    }

    constructor (grace: int)
      ensures Rep() == Reg(map[], map[]) && configuredGrace == grace
    {
      peers, index, configuredGrace := map[], map[], grace;
    }

    /** Seconds an address stays reachable after a collapse: two minutes when unset, none when negative. */
    function CollapseGrace(): (g: nat)
      ensures configuredGrace > 0 ==> g == configuredGrace
      ensures configuredGrace == 0 ==> g == 120
      ensures configuredGrace < 0 ==> g == 0
    {
      if configuredGrace == 0 then DEFAULT_COLLAPSE_GRACE else if configuredGrace < 0 then 0 else configuredGrace
    }

    method DeleteIndex(addrs: seq<Addr>)
      modifies this`index
      ensures index == old(index) - (set a | a in addrs)
    {
      for i := 0 to |addrs|
        invariant index == old(index) - (set a | a in addrs[..i])
      {
        assert addrs[..i + 1] == addrs[..i] + [addrs[i]];
        index := index - {addrs[i]};
      }
      assert addrs[..|addrs|] == addrs;
    }

    method DeleteRetiredIndex(rs: seq<RetiredAddr>)
      modifies this`index
      ensures index == old(index) - (set r | r in rs :: r.address)
    {
      for i := 0 to |rs|
        invariant index == old(index) - (set r | r in rs[..i] :: r.address)
      {
        assert rs[..i + 1] == rs[..i] + [rs[i]];
        index := index - {rs[i].address};
      }
      assert rs[..|rs|] == rs;
    }

    /** Deletes every index key of a record. */
    method DeleteAddrs(p: Peer)
      modifies this`index
      ensures index == old(index) - AddrsOf(p)
    {
      DeleteIndex(p.known);
      DeleteRetiredIndex(p.retired);
    }

    method WriteIndex(addrs: seq<Addr>, id: PeerId)
      modifies this`index
      ensures index == old(index) + map a | a in addrs :: id
    {
      for i := 0 to |addrs|
        invariant index == old(index) + map a | a in addrs[..i] :: id
      {
        assert addrs[..i + 1] == addrs[..i] + [addrs[i]];
        index := index[addrs[i] := id];
      }
      assert addrs[..|addrs|] == addrs;
    }

    /** Writes a record and its index keys over whatever was there. */
    method Add(p: Peer) returns (r: Outcome)
      modifies this`peers, this`index
      ensures r == if PeerValid(p) then Done else Refused
      ensures r == Done <==> p.id != [] && |p.inbound| == 32 && |p.outbound| == 32
      ensures Rep() == if r == Done then PutPeer(old(Rep()), p) else old(Rep())
      ensures r == Done ==> peers == old(peers)[p.id := p]
    {
      if p.id == [] || |p.inbound| != SECRET_LEN || |p.outbound| != SECRET_LEN {
        return Refused;
      }
      peers := peers[p.id := p];
      WriteIndex(p.known, p.id);
      r := Done;
    }

    method Remove(id: PeerId)
      modifies this`peers, this`index
      ensures Rep() == RemoveTxn(old(Rep()), id)
    {
      if id !in peers {
        return;
      }
      var p := peers[id];
      peers := peers - {id};
      DeleteAddrs(p);
    }

    /** Retires a peer in place: its record stays, its secrets and addresses go. */
    method RetireInTxn(id: PeerId, at: int) returns (r: Outcome)
      modifies this`peers, this`index
      ensures Rep() == RetireTxn(old(Rep()), id, at)
      ensures r == if id in old(peers) then Done else NotFound
    {
      if id !in peers {
        return NotFound;
      }
      var p := peers[id];
      if p.retiredAt != 0 {
        return Done;
      }
      peers := peers[id := p.(retiredAt := at, inbound := [], outbound := [], known := [], myOnionAddr := [],
                              myOnionKey := [], retired := [], prevMyOnion := None)];
      DeleteAddrs(p);
      r := Done;
    }

    /** The ids the index names for the invited addresses, the invited peer's own excepted. */
    method CollectDisplaced(p: Peer) returns (ids: set<PeerId>)
      ensures ids == Displaced(Rep(), p)
    {
      ids := {};
      for i := 0 to |p.known|
        invariant ids == set a | a in p.known[..i] && a in index && index[a] != p.id :: index[a]
      {
        var a := p.known[i];
        assert p.known[..i + 1] == p.known[..i] + [a];
        if a in index && index[a] != p.id {
          ids := ids + {index[a]};
        }
      }
      assert p.known[..|p.known|] == p.known;
    }

    /** Retires the displaced peers in whatever order the set yields them. */
    method RetireDisplaced(ids: set<PeerId>, at: int) returns (retired: seq<PeerId>)
      modifies this`peers, this`index
      ensures Rep() == RetireAll(old(Rep()), ids, at)
      ensures forall id: PeerId :: id in retired <==> id in ids && id in old(peers)
    {
      var left := ids;
      retired := [];
      ghost var reg0 := Rep();
      RetireNone(reg0, at);
      while left != {}
        invariant left <= ids && Rep() == RetireAll(reg0, ids - left, at) && peers.Keys == reg0.peers.Keys
        invariant forall id: PeerId :: id in retired <==> id in ids - left && id in reg0.peers
        decreases left
      {
        var id :| id in left;
        RetireOneMore(reg0, ids - left, id, at);
        assert ids - (left - {id}) == (ids - left) + {id};
        var r := RetireInTxn(id, at);
        if r == Done {
          retired := retired + [id];
        }
        left := left - {id};
      }
      assert ids - left == ids;
    }

    /** Takes in a peer. Peers whose addresses the invite claims are retired and reported. */
    method Import(inv: Invite, now: int) returns (r: Outcome, retired: seq<PeerId>)
      modifies this`peers, this`index
      ensures r == if InviteOk(inv) then Done else Refused
      ensures r == Done <==> inv.peerId != [] && |inv.inbound| == 32 && |inv.outbound| == 32
      ensures r == Done ==>
        inv.peerId in peers && peers[inv.peerId] ==
          Peer(inv.peerId, inv.addresses, inv.myOnionAddr, inv.myOnionKey, inv.inbound, inv.outbound, 0, [], None)
      ensures Rep() == if InviteOk(inv) then ImportTxn(old(Rep()), InvitedPeer(inv), now) else old(Rep())
      ensures InviteOk(inv) ==> forall id: PeerId :: id in retired <==>
        id in Displaced(old(Rep()), InvitedPeer(inv)) && id in old(peers)
    {
      if inv.peerId == [] || |inv.inbound| != SECRET_LEN || |inv.outbound| != SECRET_LEN {
        return Refused, [];
      }
      var p := Peer(inv.peerId, inv.addresses, inv.myOnionAddr, inv.myOnionKey, inv.inbound, inv.outbound, 0, [], None);
      var displaced := CollectDisplaced(p);
      retired := RetireDisplaced(displaced, now);
      peers := peers[p.id := p];
      WriteIndex(p.known, p.id);
      r := Done;
    }

    method FilterOut(addrs: seq<Addr>, drop: Addr) returns (kept: seq<Addr>)
      ensures kept == Without(addrs, drop)
    {
      kept := [];
      for i := 0 to |addrs|
        invariant kept == Without(addrs[..i], drop)
      {
        assert addrs[..i + 1][..i] == addrs[..i];
        if addrs[i] != drop {
          kept := kept + [addrs[i]];
        }
      }
      assert addrs[..|addrs|] == addrs;
    }

    /** Puts an address first; a retired peer is refused, and an address already first changes nothing. */
    method OverlayPeerAddress(id: PeerId, address: Addr) returns (r: Outcome)
      modifies this`peers, this`index
      ensures address == [] ==> r == Refused && Rep() == old(Rep())
      ensures address != [] ==> Rep() == OverlayTxn(old(Rep()), id, address)
      ensures address != [] ==>
        r == if id !in old(peers) then NotFound else if old(peers)[id].retiredAt != 0 then Refused else Done
    {
      if address == [] {
        return Refused;
      }
      if id !in peers {
        return NotFound;
      }
      var p := peers[id];
      if p.retiredAt != 0 {
        return Refused;
      }
      if |p.known| > 0 && p.known[0] == address {
        return Done;
      }
      var filtered := FilterOut(p.known, address);
      peers := peers[id := p.(known := [address] + filtered)];
      index := index[address := id];
      r := Done;
    }

    method CollapsePeerAddress(id: PeerId, retain: Addr, now: int) returns (r: Outcome)
      modifies this`peers, this`index
      ensures retain == [] ==> r == Refused && Rep() == old(Rep())
      ensures retain != [] ==> Rep() == CollapseTxn(old(Rep()), id, retain, now, CollapseGrace())
      ensures retain != [] ==>
        r == if id !in old(peers) then NotFound else if retain !in old(peers)[id].known then Refused else Done
    {
      if retain == [] {
        return Refused;
      }
      if id !in peers {
        return NotFound;
      }
      var p := peers[id];
      var grace := CollapseGrace();
      if retain !in p.known {
        return Refused;
      }
      var toDrop := FilterOut(p.known, retain);
      p := p.(known := [retain]);
      if grace > 0 {
        p := p.(retired := p.retired + RetireAddrs(toDrop, now + grace));
      }
      peers := peers[id := p];
      if grace == 0 {
        DeleteIndex(toDrop);
      }
      r := Done;
    }

    /** Splits the retired addresses by their end. */
    method SplitRetired(rs: seq<RetiredAddr>, now: int) returns (kept: seq<RetiredAddr>, toDrop: seq<Addr>)
      ensures kept == Unexpired(rs, now) && (set a | a in toDrop) == ExpiredAddrs(rs, now)
      ensures |kept| + |toDrop| == |rs| && (toDrop == [] ==> kept == rs)
    {
      hide ExpiredAddrs;
      kept, toDrop := [], [];
      NoneExpired(now);
      for i := 0 to |rs|
        invariant kept == Unexpired(rs[..i], now)
        invariant (set a | a in toDrop) == ExpiredAddrs(rs[..i], now)
        invariant |kept| + |toDrop| == i && (toDrop == [] ==> kept == rs[..i])
      {
        var ra := rs[i];
        assert rs[..i + 1][..i] == rs[..i] && rs[..i + 1] == rs[..i] + [ra];
        if ra.expiresAt <= now {
          ExpireOne(rs[..i], ra, now);
          assert (set a | a in toDrop + [ra.address]) == (set a | a in toDrop) + {ra.address};
          toDrop := toDrop + [ra.address];
        } else {
          KeepOne(rs[..i], ra, now);
          kept := kept + [ra];
        }
      }
      assert rs[..|rs|] == rs;
    }

    /** One peer's transaction of the sweep. */
    method SweepPeer(id: PeerId, now: int) returns (swept: nat)
      modifies this`peers, this`index
      ensures Rep() == SweepTxn(old(Rep()), id, now)
      ensures swept == if id in old(peers) then |old(peers)[id].retired| - |peers[id].retired| else 0
    {
      hide Unexpired, ExpiredAddrs;
      swept := 0;
      if id !in peers {
        return;
      }
      var p := peers[id];
      if |p.retired| == 0 {
        NoneExpired(now);
        SweepNothing(Rep(), id, now);
        return;
      }
      var kept, toDrop := SplitRetired(p.retired, now);
      if |toDrop| == 0 {
        SweepNothing(Rep(), id, now);
        return;
      }
      peers := peers[id := p.(retired := kept)];
      DeleteIndex(toDrop);
      swept := |toDrop|;
    }

    /** The whole sweep, one transaction for each listed peer; afterwards no listed peer holds an expired address,
        and all that were expired are counted. */
    method SweepRetiredAddrs(ids: seq<PeerId>, now: int) returns (swept: nat)
      requires forall i, j | 0 <= i < j < |ids| :: ids[i] != ids[j]
      modifies this`peers, this`index
      ensures Rep() == SweepAll(old(Rep()), IdSet(ids), now)
      ensures swept == ExpiredTotal(old(peers), ids, now)
    {
      hide SweepTxn, SweepAll, ExpiredTotal;
      swept := 0;
      ghost var reg0 := Rep();
      SweepNone(reg0, now);
      NoneListed(reg0, ids, now);
      assert IdSet(ids[..0]) == {};
      for i := 0 to |ids|
        invariant Rep() == SweepAll(reg0, IdSet(ids[..i]), now)
        invariant swept == ExpiredTotal(reg0.peers, ids[..i], now)
      {
        ghost var done := IdSet(ids[..i]);
        assert ids[..i + 1] == ids[..i] + [ids[i]];
        CountOneMore(reg0, done, ids, i, now);
        assert IdSet(ids[..i + 1]) == done + {ids[i]};
        SweepOneMore(reg0, done, ids[i], now);
        var n := SweepPeer(ids[i], now);
        swept := swept + n;
      }
      assert ids[..|ids|] == ids;
    }

    method Retire(id: PeerId, now: int) returns (r: Outcome)
      modifies this`peers, this`index
      ensures Rep() == RetireTxn(old(Rep()), id, now)
      ensures r == if id in old(peers) then Done else NotFound
    {
      r := RetireInTxn(id, now);
    }

    /** Finds the peer that holds an address. */
    method ByAddress(a: Addr) returns (p: Option<Peer>)
      requires Inv(Rep())
      ensures p.Some? ==> p.value.id in peers && peers[p.value.id] == p.value && Holds(p.value, a)
      ensures p.None? ==> forall id | id in peers :: !Holds(peers[id], a)
    {
      if a !in index {
        forall id | id in peers ensures !Holds(peers[id], a) { NamedIffHeld(Rep(), id, a); }
        return None;
      }
      assert Names(index, a, index[a]);
      assert PeerOk(index[a], peers[index[a]]);
      p := Some(peers[index[a]]);
    }

    /** Replaces the peer's own onion. With a grace period no onion is lost: the old one becomes the predecessor,
        and the predecessor before it is handed back for deletion. Without one a still recorded predecessor is
        forgotten, unless it is the old or the new onion. */
    method RotateOwnOnion(id: PeerId, address: Addr, key: Bytes, now: int) returns (r: Outcome, gone: Addr)
      modifies this`peers
      ensures r == if address == [] || key == [] then Refused else if id !in old(peers) then NotFound
                   else if old(peers)[id].retiredAt != 0 then Refused else Done
      ensures r != Done ==> peers == old(peers) && gone == []
      ensures r == Done ==>
        id in peers && peers == old(peers)[id := peers[id]] && peers[id].myOnionAddr == address &&
        peers[id] == old(peers)[id].(myOnionAddr := address, myOnionKey := key, prevMyOnion := peers[id].prevMyOnion)
      ensures r == Done ==>
        && peers[id].prevMyOnion ==
           (if CollapseGrace() == 0 || old(peers)[id].myOnionAddr == [] then None
            else Some(PrevOnion(old(peers)[id].myOnionAddr, old(peers)[id].myOnionKey, now + CollapseGrace())))
        && gone == (if CollapseGrace() == 0 then old(peers)[id].myOnionAddr
                    else if old(peers)[id].prevMyOnion.Some? then old(peers)[id].prevMyOnion.value.address
                    else [])
      ensures r == Done ==>
        (NoOnionLost(old(peers)[id], peers[id], address, gone) <==>
         CollapseGrace() > 0 || OwnOnions(old(peers)[id]) <= {old(peers)[id].myOnionAddr, address})
    {
      gone := [];
      if address == [] || key == [] {
        return Refused, [];
      }
      if id !in peers {
        return NotFound, [];
      }
      var p := peers[id];
      if p.retiredAt != 0 {
        return Refused, [];
      }
      var grace := CollapseGrace();
      var oldAddr, oldKey := p.myOnionAddr, p.myOnionKey;
      if grace == 0 {
        gone := oldAddr;
        p := p.(prevMyOnion := None);
      } else {
        if p.prevMyOnion.Some? {
          gone := p.prevMyOnion.value.address;
        }
        if oldAddr != [] {
          p := p.(prevMyOnion := Some(PrevOnion(oldAddr, oldKey, now + grace)));
        } else {
          p := p.(prevMyOnion := None);
        }
      }
      p := p.(myOnionAddr := address, myOnionKey := key);
      peers := peers[id := p];
      r := Done;
    }
  }

  lemma NoneExpired(now: int)
    ensures Unexpired([], now) == [] && ExpiredAddrs([], now) == {}
  {
  }

  lemma SweepNothing(reg: Reg, id: PeerId, now: int)
    requires id in reg.peers && ExpiredAddrs(reg.peers[id].retired, now) == {}
    requires Unexpired(reg.peers[id].retired, now) == reg.peers[id].retired
    ensures SweepTxn(reg, id, now) == reg
  {
    hide Unexpired, ExpiredAddrs;
    var p := reg.peers[id];
    assert reg.peers[id := p] == reg.peers && reg.index - {} == reg.index;
  }

  lemma ExpireOne(rs: seq<RetiredAddr>, r: RetiredAddr, now: int)
    requires r.expiresAt <= now
    ensures ExpiredAddrs(rs + [r], now) == ExpiredAddrs(rs, now) + {r.address}
  {
    assert r in rs + [r];
  }

  lemma KeepOne(rs: seq<RetiredAddr>, r: RetiredAddr, now: int)
    requires r.expiresAt > now
    ensures ExpiredAddrs(rs + [r], now) == ExpiredAddrs(rs, now)
  {
  }
}
