/** The receiver's inbox with its dedup index, and the order in which an inbound envelope is handled. */
module Inbox {
  import opened Bytes
  import opened Xport

  datatype Entry = Entry(arrivalAt: int, peerId: Bytes, envelope: Envelope)

  /** An inbox key: arrival time, then envelope id. */
  datatype Slot = Slot(at: int, id: Id)

  /** What the store holds; every entry stored so far; of these the ones still to be announced, those announced,
      and those whose announcement a crash swallowed; and the ids removed so far. */
  datatype Box = Box(entries: map<Slot, Entry>, index: set<Id>, stored: seq<Entry>, pending: multiset<Entry>,
                     announced: seq<Entry>, lost: multiset<Entry>, removed: seq<Id>)

  const EMPTY_BOX := Box(map[], {}, [], multiset{}, [], multiset{}, [])

  /** The transaction of Put: a known envelope is left alone. */
  function StoreTxn(b: Box, e: Entry): Box {
    if e.envelope.id in b.index then b
    else
      b.(entries := b.entries[Slot(e.arrivalAt, e.envelope.id) := e], index := b.index + {e.envelope.id},
         stored := b.stored + [e], pending := b.pending + multiset{e})
  }

  /** The announcement that follows it. */
  function Publish(b: Box, e: Entry): Box { b.(pending := b.pending - multiset{e}, announced := b.announced + [e]) }

  /** The process ends: what is still to be announced never is. */
  function Crash(b: Box): Box { b.(pending := multiset{}, lost := b.lost + b.pending) }

  /** Put with nothing in between. */
  function PutTxn(b: Box, e: Entry): Box {
    if e.envelope.id in b.index then b else Publish(StoreTxn(b, e), e)
  }

  /** The write phase of Delete: the entry its scan found, and the id's index key. */
  function DeleteTxn(b: Box, s: Slot): Box {
    b.(entries := b.entries - {s}, index := b.index - {s.id},
       removed := if s.id in b.index then b.removed + [s.id] else b.removed)
  }

  /** Every stored entry has its dedup key, and every dedup key exactly one entry. */
  ghost predicate IndexAgrees(b: Box) {
    && (forall s: Slot | s in b.entries :: s.id in b.index && b.entries[s].envelope.id == s.id)
    && (forall id: Id | id in b.index :: exists s: Slot :: s in b.entries && s.id == id)
    && (forall s: Slot, s': Slot | s in b.entries && s' in b.entries && s.id == s'.id :: s == s')
  }

  /** How many of the entries carry the envelope id. */
  function CountId(es: seq<Entry>, id: Id): nat {
    if es == [] then 0 else CountId(es[..|es| - 1], id) + (if es[|es| - 1].envelope.id == id then 1 else 0)
  }

  function Removals(ids: seq<Id>, id: Id): nat {
    if ids == [] then 0 else Removals(ids[..|ids| - 1], id) + (if ids[|ids| - 1] == id then 1 else 0)
  }

  /** An envelope is stored once more than it was removed while it is held, and as often otherwise. */
  ghost predicate StoredOnce(b: Box) {
    forall id: Id :: CountId(b.stored, id) == Removals(b.removed, id) + (if id in b.index then 1 else 0)
  }

  /** Every entry stored is announced once, about to be, or was lost to a crash. */
  ghost predicate Accounted(b: Box) { multiset(b.stored) == multiset(b.announced) + b.pending + b.lost }

  ghost predicate BoxOk(b: Box) { IndexAgrees(b) && StoredOnce(b) && Accounted(b) }

  lemma CountOneMore(es: seq<Entry>, e: Entry, id: Id)
    ensures CountId(es + [e], id) == CountId(es, id) + (if e.envelope.id == id then 1 else 0)
  {
    assert (es + [e])[..|es|] == es;
  }

  lemma RemoveOneMore(ids: seq<Id>, x: Id, id: Id)
    ensures Removals(ids + [x], id) == Removals(ids, id) + (if x == id then 1 else 0)
  {
    assert (ids + [x])[..|ids|] == ids;
  }

  lemma StoreKeeps(b: Box, e: Entry)
    requires BoxOk(b)
    ensures BoxOk(StoreTxn(b, e)) && e.envelope.id in StoreTxn(b, e).index && b.stored <= StoreTxn(b, e).stored
  {
    if e.envelope.id !in b.index {
      StoreCounts(b, e);
      StoreAgrees(b, e);
      assert multiset(b.stored + [e]) == multiset(b.stored) + multiset{e};
    }
  }

  lemma StoreCounts(b: Box, e: Entry)
    requires StoredOnce(b) && e.envelope.id !in b.index
    ensures StoredOnce(StoreTxn(b, e))
  {
    var b' := StoreTxn(b, e);
    forall id: Id ensures CountId(b'.stored, id) == Removals(b'.removed, id) + (if id in b'.index then 1 else 0) {
      CountOneMore(b.stored, e, id);
    }
  }

  lemma StoreAgrees(b: Box, e: Entry)
    requires IndexAgrees(b) && e.envelope.id !in b.index
    ensures IndexAgrees(StoreTxn(b, e))
  {
    var b' := StoreTxn(b, e);
    assert Slot(e.arrivalAt, e.envelope.id) in b'.entries;
    forall id: Id | id in b'.index ensures exists s: Slot :: s in b'.entries && s.id == id {
      if id in b.index { var s :| s in b.entries && s.id == id; assert s in b'.entries; }
    }
  }

  lemma PublishKeeps(b: Box, e: Entry)
    requires BoxOk(b) && e in b.pending
    ensures BoxOk(Publish(b, e))
  {
    assert multiset(b.announced + [e]) == multiset(b.announced) + multiset{e};
  }

  lemma CrashKeeps(b: Box)
    requires BoxOk(b)
    ensures BoxOk(Crash(b)) && Crash(b).pending == multiset{}
  {
  }

  /** A put without a crash stores and announces at once. */
  lemma PutKeeps(b: Box, e: Entry)
    requires BoxOk(b)
    ensures BoxOk(PutTxn(b, e)) && PutTxn(b, e).pending == b.pending && PutTxn(b, e).lost == b.lost
  {
    StoreKeeps(b, e);
    if e.envelope.id !in b.index { PublishKeeps(StoreTxn(b, e), e); }
  }

  /** A crash between storing and announcing is not made up for: the envelope delivered again is known, hence
      accepted, and not announced. */
  lemma CrashSwallowsAnnouncement(b: Box, e: Entry, again: Entry)
    requires BoxOk(b) && e.envelope.id !in b.index && again.envelope == e.envelope
    ensures var b' := PutTxn(Crash(StoreTxn(b, e)), again);
            again.envelope.id in b'.index && b'.announced == b.announced && b'.lost == b.lost + b.pending + multiset{e}
  {
  }

  lemma DeleteCounts(b: Box, s: Slot)
    requires StoredOnce(b) && Accounted(b)
    ensures StoredOnce(DeleteTxn(b, s)) && Accounted(DeleteTxn(b, s))
  {
    var b' := DeleteTxn(b, s);
    forall id: Id ensures CountId(b'.stored, id) == Removals(b'.removed, id) + (if id in b'.index then 1 else 0) {
      if s.id in b.index { RemoveOneMore(b.removed, s.id, id); }
    }
  }

  /** Deleting keeps index and entries together exactly when the entry the scan found is still there, or no
      entry of that envelope is: an envelope deleted twice and delivered again in between would keep its new
      entry and lose its dedup key. */
  lemma DeleteKeepsIff(b: Box, s: Slot)
    requires IndexAgrees(b)
    ensures IndexAgrees(DeleteTxn(b, s)) <==> s in b.entries || forall s': Slot | s' in b.entries :: s'.id != s.id
  {
    var b' := DeleteTxn(b, s);
    if s in b.entries || forall s': Slot | s' in b.entries :: s'.id != s.id {
      forall id: Id | id in b'.index ensures exists x: Slot :: x in b'.entries && x.id == id {
        var x :| x in b.entries && x.id == id;
        assert x in b'.entries;
      }
    } else {
      var s' :| s' in b.entries && s'.id == s.id;
      assert s' in b'.entries && s'.id !in b'.index;
    }
  }

  /** Two deletes whose scans both found the old entry, with a redelivery in between: the new entry stays without
      its index key. */
  lemma DoubleDeleteBreaksIndex(e: Entry, laterAt: int)
    requires laterAt != e.arrivalAt
    ensures var slot := Slot(e.arrivalAt, e.envelope.id);
            var once := DeleteTxn(PutTxn(EMPTY_BOX, e), slot);
            var again := PutTxn(once, e.(arrivalAt := laterAt));
            IndexAgrees(again) && !IndexAgrees(DeleteTxn(again, slot))
  {
    var id := e.envelope.id;
    var slot, later := Slot(e.arrivalAt, id), Slot(laterAt, id);
    var again := PutTxn(DeleteTxn(PutTxn(EMPTY_BOX, e), slot), e.(arrivalAt := laterAt));
    assert again.entries == map[later := e.(arrivalAt := laterAt)] && again.index == {id};
    assert later in DeleteTxn(again, slot).entries && later.id !in DeleteTxn(again, slot).index;
  }

  // ---------- handling one inbound envelope ----------

  datatype Kind = Text | Status | SentAck | DestroyVerify | DestroyVerifyAck | Destroy | DestroyReceipt | Other

  /** A handler's answer; `Ack(None)` is a bare 200. */
  datatype Reply = BadRequest | Unauthorized | ServerError | Ack(id: Option<Id>)

  class Mailbox {
    var box: Box

    ghost predicate Valid()
      reads this
    {
      BoxOk(box)
    }

    constructor ()
      ensures Valid() && box == EMPTY_BOX
    {
      box := EMPTY_BOX;
    }

    /** Stores and announces an entry unless its envelope is known; `fails` is a failing transaction. */
    method Put(e: Entry, fails: bool) returns (ok: bool)
      requires Valid()
      modifies this
      ensures Valid() && ok == !fails
      ensures box == if fails then old(box) else PutTxn(old(box), e)
      ensures ok ==> e.envelope.id in box.index
    {
      if fails {
        return false;
      }
      PutKeeps(box, e);
      var stored := false;
      if e.envelope.id !in box.index {
        box := box.(index := box.index + {e.envelope.id});
        box := box.(entries := box.entries[Slot(e.arrivalAt, e.envelope.id) := e]);
        box := box.(stored := box.stored + [e], pending := box.pending + multiset{e});
        stored := true;
      }
      if stored {
        box := box.(pending := box.pending - multiset{e}, announced := box.announced + [e]);
      }
      ok := true;
    }

    /** The read phase of Delete: the first key, in the order of the scan, that names the envelope. */
    method FindSlot(scan: seq<Slot>, id: Id) returns (s: Option<Slot>)
      requires forall x: Slot :: x in scan <==> x in box.entries
      ensures s.Some? ==> s.value in box.entries && s.value.id == id
      ensures s.None? ==> forall x: Slot | x in box.entries :: x.id != id
    {
      var i := 0;
      while i < |scan|
        invariant 0 <= i <= |scan|
        invariant forall k | 0 <= k < i :: scan[k].id != id
      {
        if scan[i].id == id {
          return Some(scan[i]);
        }
        i := i + 1;
      }
      s := None;
    }

    method DeleteSlot(s: Slot)
      modifies this
      ensures box == DeleteTxn(old(box), s)
    {
      if s.id in box.index {
        box := box.(removed := box.removed + [s.id]);
      }
      box := box.(entries := box.entries - {s});
      box := box.(index := box.index - {s.id});
    }

    /** Delete with nothing in between its two phases. */
    method Delete(scan: seq<Slot>, id: Id) returns (found: bool)
      requires Valid() && forall x: Slot :: x in scan <==> x in box.entries
      modifies this
      ensures Valid() && found == (id in old(box).index)
      ensures id !in box.index && forall x: Slot | x in box.entries :: x.id != id
      ensures forall x: Slot | x.id != id :: (x in box.entries <==> x in old(box).entries) &&
                                            (x in box.entries ==> box.entries[x] == old(box).entries[x])
    {
      var s := FindSlot(scan, id);
      if s.None? {
        return false;
      }
      DeleteKeepsIff(box, s.value);
      DeleteCounts(box, s.value);
      DeleteSlot(s.value);
      found := true;
    }

    /** Verify, then receive, then acknowledge. An acknowledgement of a text envelope means that the inbox has
        accepted it; a reply that is not one means that this request has stored nothing. */
    method HandleMessage(env: Envelope, kind: Kind, verified: bool, hasResponder: bool, response: Option<Option<Id>>,
                         arrivalAt: int, peerId: Bytes, putFails: bool, ack: Option<Id>) returns (r: Reply)
      requires Valid()
      modifies this
      ensures Valid()
      ensures r == BadRequest <==> env.id == []
      ensures r == Unauthorized <==> env.id != [] && !verified
      ensures env.id != [] && verified && kind in {SentAck, DestroyVerifyAck, DestroyReceipt} ==> r == Ack(None)
      ensures env.id != [] && verified && hasResponder && kind in {Status, DestroyVerify, Destroy} ==>
        r == if response.Some? then Ack(response.value) else ServerError
      ensures if env.id != [] && verified && kind !in {SentAck, DestroyVerifyAck, DestroyReceipt} &&
                 !(hasResponder && kind in {Status, DestroyVerify, Destroy})
              then
                && r == (if putFails then ServerError else Ack(ack))
                && box == (if putFails then old(box) else PutTxn(old(box), Entry(arrivalAt, peerId, env)))
              else box == old(box)
      ensures r.Ack? && kind == Text ==> env.id in box.index
    {
      if env.id == [] {
        return BadRequest;
      }
      if !verified {
        return Unauthorized;
      }
      if kind == SentAck {
        return Ack(None);
      }
      if kind == DestroyVerifyAck || kind == DestroyReceipt {
        return Ack(None);
      }
      if hasResponder && (kind == Status || kind == DestroyVerify || kind == Destroy) {
        if response.None? {
          return ServerError;
        }
        return Ack(response.value);
      }
      var ok := Put(Entry(arrivalAt, peerId, env), putFails);
      if !ok {
        return ServerError;
      }
      r := Ack(ack);
    }
  }
}
