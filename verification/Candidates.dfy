/** The candidates of one lookup, nearest first, and the rounds of queries sent to them. */
module Candidates {
  import opened Bytes
  import opened Kademlia

  datatype Candidate = Candidate(id: Id, addr: Addr, queried: bool)

  predicate Sorted(cs: seq<Candidate>, target: Id) {
    forall i, j | 0 <= i < j < |cs| :: Dist(cs[i].id, target) < Dist(cs[j].id, target)
  }

  function Unqueried(cs: seq<Candidate>): seq<Candidate> {
    if cs == [] then []
    else
      var front := Unqueried(cs[..|cs| - 1]);
      if cs[|cs| - 1].queried then front else front + [cs[|cs| - 1]]
  }

  /** The nearest n of those not asked yet. */
  function Nearest(cs: seq<Candidate>, n: nat): seq<Candidate> {
    if |Unqueried(cs)| <= n then Unqueried(cs) else Unqueried(cs)[..n]
  }

  predicate Picked(picks: seq<Candidate>, c: Candidate) { c in picks }

  function Marked(cs: seq<Candidate>, picks: seq<Candidate>): seq<Candidate> {
    seq(|cs|, i requires 0 <= i < |cs| => if Picked(picks, cs[i]) then cs[i].(queried := true) else cs[i])
  }

  lemma {:induction false} UnqueriedIs(cs: seq<Candidate>)
    ensures forall c: Candidate :: c in Unqueried(cs) <==> c in cs && !c.queried
  {
    if cs != [] {
      UnqueriedIs(cs[..|cs| - 1]);
      assert cs == cs[..|cs| - 1] + [cs[|cs| - 1]];
    }
  }

  lemma {:induction false} UnqueriedSorted(cs: seq<Candidate>, target: Id)
    requires Sorted(cs, target)
    ensures Sorted(Unqueried(cs), target)
  {
    if cs != [] {
      UnqueriedSorted(cs[..|cs| - 1], target);
      UnqueriedIs(cs[..|cs| - 1]);
    }
  }

  /** What is picked was not asked before, and nothing left out lies nearer than anything picked. */
  lemma NearestIs(cs: seq<Candidate>, n: nat, target: Id)
    requires Sorted(cs, target)
    ensures var picks := Nearest(cs, n);
            && |picks| <= n && Sorted(picks, target)
            && (forall p | p in picks :: p in cs && !p.queried)
            && (forall c | c in cs && !c.queried && c !in picks ::
                  |picks| == n && forall p | p in picks :: Dist(p.id, target) < Dist(c.id, target))
  {
    UnqueriedIs(cs);
    UnqueriedSorted(cs, target);
  }

  lemma SortedDistinct(cs: seq<Candidate>, target: Id, c: Candidate, d: Candidate)
    requires Sorted(cs, target) && c in cs && d in cs && c.id == d.id
    ensures c == d
  {
    var i :| 0 <= i < |cs| && cs[i] == c;
    var j :| 0 <= j < |cs| && cs[j] == d;
  }

  lemma {:induction false} UnqueriedPrefix(cs: seq<Candidate>, i: nat)
    requires i <= |cs|
    ensures Unqueried(cs[..i]) <= Unqueried(cs)
  {
    if i == |cs| {
      assert cs[..i] == cs;
    } else {
      UnqueriedPrefix(cs[..|cs| - 1], i);
      assert cs[..|cs| - 1][..i] == cs[..i];
    }
  }

  /** Marking changes no id, address or order, and exactly the picked ones become asked. */
  lemma MarkedIs(cs: seq<Candidate>, picks: seq<Candidate>, target: Id)
    requires Sorted(cs, target)
    ensures Sorted(Marked(cs, picks), target) && |Marked(cs, picks)| == |cs|
    ensures forall i | 0 <= i < |cs| ::
              Marked(cs, picks)[i] == cs[i].(queried := cs[i].queried || Picked(picks, cs[i]))
  {
  }

  predicate Inserted(was: seq<Candidate>, k: int, c: Candidate, now: seq<Candidate>) {
    0 <= k <= |was| && now == was[..k] + [c] + was[k..]
  }

  lemma InsertedIs(was: seq<Candidate>, k: int, c: Candidate, now: seq<Candidate>, target: Id)
    requires Inserted(was, k, c, now) && Sorted(was, target)
    requires forall i | 0 <= i < k :: Dist(was[i].id, target) < Dist(c.id, target)
    requires forall i | k <= i < |was| :: Dist(c.id, target) < Dist(was[i].id, target)
    ensures Sorted(now, target) && now != []
    ensures forall x: Candidate :: x in now <==> x in was || x == c
    ensures now[0] == if k == 0 then c else was[0]
  {
    assert was == was[..k] + was[k..];
  }

  ghost predicate WellFormed(target: Id, byId: map<Id, Addr>, cs: seq<Candidate>, closest: Id, hasAny: bool) {
    && Sorted(cs, target)
    && Indexed(byId, cs)
    && hasAny == (cs != [])
    && (hasAny ==> closest == XorBytes(cs[0].id, target))
  }

  class CandidateSet {
    const target: Id
    var byId: map<Id, Addr>
    var sorted: seq<Candidate>
    var closest: Id
    var hasAny: bool

    /** The set is strictly sorted by distance, holds each id once, and closest is its least distance. */
    ghost predicate Valid()
      reads this`byId, this`sorted, this`closest, this`hasAny
    {
      WellFormed(target, byId, sorted, closest, hasAny)
    }

    constructor (target: Id)
      ensures Valid() && sorted == [] && this.target == target && byId == map[]
    {
      this.target, byId, sorted, hasAny := target, map[], [], false;
      closest := seq(20, _ => 0);
    }

    /** The first place that is not nearer, by bisection. */
    method Place(id: Id, dist: Id) returns (idx: nat)
      requires Sorted(sorted, target) && dist == XorBytes(id, target)
      ensures idx <= |sorted|
      ensures forall i | 0 <= i < idx :: Dist(sorted[i].id, target) < Dist(id, target)
      ensures forall i | idx <= i < |sorted| :: Dist(id, target) <= Dist(sorted[i].id, target)
    {
      hide XorBytes, Dist, Sorted;
      var lo, hi := 0, |sorted|;
      DistIs(id, target);
      while lo < hi
        invariant 0 <= lo <= hi <= |sorted|
        invariant forall i | 0 <= i < lo :: Dist(sorted[i].id, target) < Dist(id, target)
        invariant forall i | hi <= i < |sorted| :: Dist(id, target) <= Dist(sorted[i].id, target)
        decreases hi - lo
      {
        var mid := (lo + hi) / 2;
        var d := Xor(sorted[mid].id, target);
        var nearer := Less(d, dist);
        DistIs(sorted[mid].id, target);
        Monotone(sorted, mid, target);
        if nearer {
          lo := mid + 1;
        } else {
          hi := mid;
        }
      }
      idx := lo;
    }

    /** Takes in an id not seen before, at its place; the others keep their order and their marks. */
    method Add(id: Id, addr: Addr) returns (added: bool)
      requires Valid()
      modifies this`byId, this`sorted, this`closest, this`hasAny
      ensures Valid()
      ensures added == (id !in old(byId))
      ensures byId == if added then old(byId)[id := addr] else old(byId)
      ensures !added ==> sorted == old(sorted)
      ensures added ==> exists k :: Inserted(old(sorted), k, Candidate(id, addr, false), sorted)
    {
      hide WellFormed, XorBytes, Dist, Inserted;
      if id in byId {
        return false;
      }
      var dist := Xor(id, target);
      assert Sorted(sorted, target) by { IsSorted(target, byId, sorted, closest, hasAny); }
      var idx := Place(id, dist);
      var c := Candidate(id, addr, false);
      AddKeeps(target, byId, sorted, closest, hasAny, c, idx);
      assert Inserted(sorted, idx, c, sorted[..idx] + [c] + sorted[idx..]) by { InsertedAt(sorted, idx, c); }
      sorted := sorted[..idx] + [c] + sorted[idx..];
      byId := byId[id := addr];
      var nearer := Less(dist, closest);
      if !hasAny || nearer {
        closest := dist;
        hasAny := true;
      }
      added := true;
    }

    /** The nearest n not asked yet, marked as asked; a limit of zero lets one through. */
    method PickUnqueried(n: nat) returns (picks: seq<Candidate>)
      requires Valid()
      modifies this`sorted
      ensures Valid()
      ensures picks == Nearest(old(sorted), if n == 0 then 1 else n) && sorted == Marked(old(sorted), picks)
    {
      hide WellFormed, XorBytes, Dist, Unqueried, Marked, MarkedTo;
      ghost var was := sorted;
      picks := [];
      assert Sorted(was, target) by { IsSorted(target, byId, was, closest, hasAny); }
      NothingMarked(was);
      var i := 0;
      while i < |sorted| && (|picks| < n || |picks| == 0)
        invariant 0 <= i <= |sorted| == |was| && picks == Unqueried(was[..i]) && |picks| <= (if n == 0 then 1 else n)
        invariant MarkedTo(was, sorted, i)
      {
        OneMarked(was, sorted, i);
        if !sorted[i].queried {
          picks := picks + [sorted[i]];
          sorted := sorted[i := sorted[i].(queried := true)];
        }
        i := i + 1;
      }
      EnoughMarked(was, sorted, i, if n == 0 then 1 else n, target);
      MarkedKeeps(target, byId, was, closest, hasAny, picks);
    }
  }

  lemma Monotone(cs: seq<Candidate>, mid: nat, target: Id)
    requires Sorted(cs, target) && mid < |cs|
    ensures forall i | 0 <= i < mid :: Dist(cs[i].id, target) < Dist(cs[mid].id, target)
    ensures forall i | mid < i < |cs| :: Dist(cs[mid].id, target) < Dist(cs[i].id, target)
  {
    hide Dist;
  }

  lemma IsSorted(target: Id, byId: map<Id, Addr>, cs: seq<Candidate>, closest: Id, hasAny: bool)
    requires WellFormed(target, byId, cs, closest, hasAny)
    ensures Sorted(cs, target)
  {
  }

  lemma InsertedAt(cs: seq<Candidate>, k: nat, c: Candidate)
    requires k <= |cs|
    ensures Inserted(cs, k, c, cs[..k] + [c] + cs[k..])
  {
  }

  /** A new candidate put at its place; it is the closest if it lies nearer than all before. */
  lemma AddKeeps(target: Id, byId: map<Id, Addr>, was: seq<Candidate>, closest: Id, hasAny: bool, c: Candidate, k: nat)
    requires WellFormed(target, byId, was, closest, hasAny) && c.id !in byId && k <= |was|
    requires forall i | 0 <= i < k :: Dist(was[i].id, target) < Dist(c.id, target)
    requires forall i | k <= i < |was| :: Dist(c.id, target) <= Dist(was[i].id, target)
    ensures var dist := XorBytes(c.id, target);
            var nearer := !hasAny || BeValue(dist) < BeValue(closest);
            WellFormed(target, byId[c.id := c.addr], was[..k] + [c] + was[k..], if nearer then dist else closest, true)
  {
    hide XorBytes, Dist, Indexed;
    var now := was[..k] + [c] + was[k..];
    NoTie(byId, was, c.id, target);
    InsertedIs(was, k, c, now, target);
    IndexedMore(byId, was, c, now);
    DistIs(c.id, target);
    if hasAny { DistIs(was[0].id, target); }
  }

  /** The first i are marked, the others as they were. */
  predicate MarkedTo(was: seq<Candidate>, now: seq<Candidate>, i: nat) {
    |now| == |was| && forall j | 0 <= j < |was| :: now[j] == if j < i then was[j].(queried := true) else was[j]
  }

  lemma NothingMarked(was: seq<Candidate>)
    ensures MarkedTo(was, was, 0) && Unqueried(was[..0]) == []
  {
  }

  lemma OneMarked(was: seq<Candidate>, now: seq<Candidate>, i: nat)
    requires MarkedTo(was, now, i) && i < |now|
    ensures now[i] == was[i] && Unqueried(was[..i + 1]) == Unqueried(was[..i]) + if was[i].queried then [] else [was[i]]
    ensures MarkedTo(was, now[i := now[i].(queried := true)], i + 1)
    ensures was[i].queried ==> MarkedTo(was, now, i + 1)
    ensures |now| == |was|
  {
    assert was[..i + 1][..i] == was[..i];
  }

  /** Once n are picked, or all have been seen, the picks are the nearest n and they are the ones marked. */
  lemma EnoughMarked(was: seq<Candidate>, now: seq<Candidate>, i: nat, n: nat, target: Id)
    requires MarkedTo(was, now, i) && i <= |was| && Sorted(was, target)
    requires |Unqueried(was[..i])| == n || (i == |was| && |Unqueried(was[..i])| <= n)
    ensures Unqueried(was[..i]) == Nearest(was, n) && now == Marked(was, Unqueried(was[..i]))
  {
    hide Unqueried, Marked, Sorted;
    UnqueriedPrefix(was, i);
    if i == |was| { assert was[..i] == was; }
    MarkedPrefix(was, i, target);
    SameMarks(was, Unqueried(was[..i]));
  }

  lemma SameMarks(was: seq<Candidate>, picks: seq<Candidate>)
    ensures |Marked(was, picks)| == |was|
  {
  }

  lemma MarkedKeeps(target: Id, byId: map<Id, Addr>, cs: seq<Candidate>, closest: Id, hasAny: bool,
                    picks: seq<Candidate>)
    requires WellFormed(target, byId, cs, closest, hasAny)
    ensures WellFormed(target, byId, Marked(cs, picks), closest, hasAny)
  {
    hide XorBytes, Dist, Indexed;
    MarkedIs(cs, picks, target);
    MarkedIndexed(byId, cs, picks);
  }

  ghost predicate Indexed(byId: map<Id, Addr>, cs: seq<Candidate>) {
    && (forall c | c in cs :: c.id in byId && byId[c.id] == c.addr)
    && (forall id | id in byId :: Has(cs, id))
  }

  ghost predicate Has(cs: seq<Candidate>, id: Id) { exists i :: 0 <= i < |cs| && cs[i].id == id }

  lemma DistIs(id: Id, target: Id)
    ensures Dist(id, target) == BeValue(XorBytes(id, target))
  {
  }

  lemma NoTie(byId: map<Id, Addr>, cs: seq<Candidate>, id: Id, target: Id)
    requires Indexed(byId, cs) && id !in byId
    ensures forall i | 0 <= i < |cs| :: Dist(cs[i].id, target) != Dist(id, target)
  {
    hide Dist;
    forall i | 0 <= i < |cs| ensures Dist(cs[i].id, target) != Dist(id, target) {
      assert cs[i] in cs;
      if Dist(cs[i].id, target) == Dist(id, target) { DistInjective(cs[i].id, id, target); }
    }
  }

  lemma IndexedMore(byId: map<Id, Addr>, was: seq<Candidate>, c: Candidate, now: seq<Candidate>)
    requires Indexed(byId, was) && c.id !in byId
    requires forall x: Candidate :: x in now <==> x in was || x == c
    ensures Indexed(byId[c.id := c.addr], now)
  {
    var byId' := byId[c.id := c.addr];
    forall id | id in byId' ensures Has(now, id) {
      if id == c.id {
        assert c in now;
        var i :| 0 <= i < |now| && now[i] == c;
      } else {
        assert Has(was, id);
        var j :| 0 <= j < |was| && was[j].id == id;
        assert was[j] in now;
        var i :| 0 <= i < |now| && now[i] == was[j];
      }
    }
  }

  lemma MarkedIndexed(byId: map<Id, Addr>, cs: seq<Candidate>, picks: seq<Candidate>)
    requires Indexed(byId, cs)
    ensures Indexed(byId, Marked(cs, picks))
  {
    var ms := Marked(cs, picks);
    forall m | m in ms ensures m.id in byId && byId[m.id] == m.addr {
      var i :| 0 <= i < |ms| && ms[i] == m;
      assert cs[i] in cs;
    }
    forall id | id in byId ensures Has(ms, id) {
      assert Has(cs, id);
      var i :| 0 <= i < |cs| && cs[i].id == id;
      assert ms[i].id == id;
    }
  }

  /** Marking what is not asked among the first i marks just those. */
  lemma MarkedPrefix(cs: seq<Candidate>, i: nat, target: Id)
    requires i <= |cs| && Sorted(cs, target)
    ensures forall j | 0 <= j < |cs| ::
              Marked(cs, Unqueried(cs[..i]))[j] == if j < i then cs[j].(queried := true) else cs[j]
  {
    hide Dist;
    UnqueriedIs(cs[..i]);
    forall j | 0 <= j < |cs|
      ensures Marked(cs, Unqueried(cs[..i]))[j] == if j < i then cs[j].(queried := true) else cs[j]
    {
      if j < i { assert cs[j] in cs[..i]; }
      assert forall k | 0 <= k < i :: k < j ==> cs[k] != cs[j];
    }
  }
}
