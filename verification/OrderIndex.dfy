/**
  The order map against the arena: a reference is mapped to (book, slot) exactly when that
  slot is queued in that book under that reference.
 */
module OrderIndex {
  import opened Words
  import opened Collections
  import opened BookSpec
  import opened OrderPools
  import opened Queues
  import opened OrderBooks
  import opened EngineSpec

  datatype OrderLocation = OrderLocation(stockLocate: uint16, poolIdx: uint32)

  type Contents = map<uint64, OrderLocation>

  /** The location of r is a live slot of that book, holding the order with reference r. */
  ghost predicate Located(contents: Contents, nodes: seq<Node>, place: seq<Place>, r: uint64)
    requires r in contents && |place| == |nodes|
  {
    var loc := contents[r];
    && loc.poolIdx < |nodes| && place[loc.poolIdx].Queued?
    && place[loc.poolIdx].side / 2 == loc.stockLocate
    && nodes[loc.poolIdx].order.ref == r
  }

  /** Live slot n is what the map says about its own reference. */
  ghost predicate Mapped(contents: Contents, nodes: seq<Node>, n: nat)
    requires n < |nodes|
  {
    nodes[n].order.ref in contents && contents[nodes[n].order.ref].poolIdx == n
  }

  ghost predicate IndexOK(contents: Contents, nodes: seq<Node>, place: seq<Place>) {
    && |place| == |nodes|
    && (forall r {:trigger Located(contents, nodes, place, r)} | r in contents :: Located(contents, nodes, place, r))
    && (forall n: nat {:trigger Mapped(contents, nodes, n)} | n < |nodes| && place[n].Queued? ::
          Mapped(contents, nodes, n))
  }

  /** The side each reference rests on. */
  ghost function SidesOf(contents: Contents, nodes: seq<Node>, place: seq<Place>): (m: map<uint64, nat>)
    requires IndexOK(contents, nodes, place)
    ensures m.Keys == contents.Keys
  {
    map r | r in contents :: assert Located(contents, nodes, place, r); place[contents[r].poolIdx].side
  }

  /** `refs` are the references of the slots in `gone`, all of them live. */
  ghost predicate RefsOfGone(refs: seq<uint64>, gone: seq<uint32>, nodes: seq<Node>, place: seq<Place>) {
    && |refs| == |gone| && |place| == |nodes|
    && (forall i | 0 <= i < |gone| ::
          gone[i] < |nodes| && place[gone[i]].Queued? && refs[i] == nodes[gone[i]].order.ref)
  }

  /** The slots a sweep frees are those of the references it removes. */
  lemma GoneRefs(id: nat, bid: bool, ranked: seq<uint32>, nodes: seq<Node>, place: seq<Place>, gone: seq<uint32>,
                 limit: uint32, shares: uint32)
    requires Members(id, ranked, nodes, place) && Funded(OrdersOf(ranked, nodes))
    requires gone <= ranked && |gone| == |SweepFrom(bid, OrdersOf(ranked, nodes), limit, shares).removed|
    ensures RefsOfGone(SweepFrom(bid, OrdersOf(ranked, nodes), limit, shares).removed, gone, nodes, place)
  {
    var rest := OrdersOf(ranked, nodes);
    SweepRest(bid, rest, limit, shares);
    forall i | 0 <= i < |gone|
      ensures gone[i] < |nodes| && place[gone[i]].Queued?
              && SweepFrom(bid, rest, limit, shares).removed[i] == nodes[gone[i]].order.ref
    {
      assert gone[i] == ranked[i] && rest[i] == nodes[ranked[i]].order;
    }
  }

  /** A reference that is not among the dropped ones is not at a dropped slot. */
  lemma NotGone(contents: Contents, nodes: seq<Node>, place: seq<Place>, gone: seq<uint32>, refs: seq<uint64>,
                r: uint64)
    requires IndexOK(contents, nodes, place) && RefsOfGone(refs, gone, nodes, place)
    requires r in contents && r !in refs
    ensures Located(contents, nodes, place, r) && contents[r].poolIdx !in gone
  {
    assert Located(contents, nodes, place, r);
    forall i | 0 <= i < |gone| ensures gone[i] != contents[r].poolIdx {
      assert refs[i] in refs;
    }
  }

  function Updated(contents: Contents, refs: seq<uint64>, ref: uint64, locate: uint16, idx: uint32): (c: Contents) {
    var kept := contents - RefSet(refs);
    if idx == INVALID then kept else kept[ref := OrderLocation(locate, idx)]
  }

  /** Dropping the removed references and adding the rested one keeps the map exact. */
  lemma RelocatedIndex(contents: Contents, nodes: seq<Node>, place: seq<Place>, gone: seq<uint32>, refs: seq<uint64>,
                       own: nat, ref: uint64, locate: uint16, idx: uint32, nodes': seq<Node>, place': seq<Place>)
    requires IndexOK(contents, nodes, place) && RefsOfGone(refs, gone, nodes, place)
    requires Relocated(own, ref, gone, idx, nodes, place, nodes', place')
    requires idx != INVALID ==> ref !in contents - RefSet(refs) && own / 2 == locate
    ensures IndexOK(Updated(contents, refs, ref, locate, idx), nodes', place')
  {
    var c := Updated(contents, refs, ref, locate, idx);
    forall r | r in c ensures Located(c, nodes', place', r) {
      if idx == INVALID || r != ref {
        NotGone(contents, nodes, place, gone, refs, r);
      }
    }
    forall n: nat | n < |nodes'| && place'[n].Queued? ensures Mapped(c, nodes', n) {
      if n != idx {
        KeptMapped(contents, nodes, place, gone, refs, n);
        assert idx != INVALID ==> nodes[n].order.ref != ref;
      }
    }
  }

  /** A live slot that is not dropped keeps its reference in the map. */
  lemma KeptMapped(contents: Contents, nodes: seq<Node>, place: seq<Place>, gone: seq<uint32>, refs: seq<uint64>,
                   n: nat)
    requires IndexOK(contents, nodes, place) && RefsOfGone(refs, gone, nodes, place)
    requires n < |nodes| && place[n].Queued? && n !in gone
    ensures nodes[n].order.ref in contents - RefSet(refs) && contents[nodes[n].order.ref].poolIdx == n
  {
    assert Mapped(contents, nodes, n);
    forall i | 0 <= i < |refs| ensures refs[i] != nodes[n].order.ref {
      assert Mapped(contents, nodes, gone[i]);
    }
  }

  /** And the sides the map implies change accordingly. */
  lemma RelocatedSides(contents: Contents, nodes: seq<Node>, place: seq<Place>, gone: seq<uint32>, refs: seq<uint64>,
                       own: nat, ref: uint64, locate: uint16, idx: uint32, nodes': seq<Node>, place': seq<Place>)
    requires IndexOK(contents, nodes, place) && RefsOfGone(refs, gone, nodes, place)
    requires Relocated(own, ref, gone, idx, nodes, place, nodes', place')
    requires idx != INVALID ==> ref !in contents - RefSet(refs) && own / 2 == locate
    requires IndexOK(Updated(contents, refs, ref, locate, idx), nodes', place')
    ensures var kept := SidesOf(contents, nodes, place) - RefSet(refs);
            SidesOf(Updated(contents, refs, ref, locate, idx), nodes', place') ==
              if idx == INVALID then kept else kept[ref := own]
  {
    var c := Updated(contents, refs, ref, locate, idx);
    var m, kept := SidesOf(c, nodes', place'), SidesOf(contents, nodes, place) - RefSet(refs);
    forall r | r in c && (idx == INVALID || r != ref) ensures r in kept && m[r] == kept[r] {
      NotGone(contents, nodes, place, gone, refs, r);
      assert Located(c, nodes', place', r);
    }
  }

  /** A queued slot sits in its side's list where the specification looks for its reference. */
  lemma FoundAt(id: nat, ranked: seq<uint32>, nodes: seq<Node>, place: seq<Place>, idx: uint32) returns (i: nat)
    requires Members(id, ranked, nodes, place) && DistinctRefs(OrdersOf(ranked, nodes))
    requires idx < |nodes| && place[idx] == Queued(id)
    ensures i < |ranked| && ranked[i] == idx
    ensures i == Position(OrdersOf(ranked, nodes), nodes[idx].order.ref)
  {
    i :| 0 <= i < |ranked| && ranked[i] == idx;
    var rest := OrdersOf(ranked, nodes);
    assert rest[i] == nodes[idx].order && Position(rest, rest[i].ref) == i;
  }

  // ---- How many orders are live ----

  ghost function RefsUpTo(nodes: seq<Node>, n: nat): (s: set<uint64>)
    requires n <= |nodes|
  {
    set i | 0 <= i < n :: nodes[i].order.ref
  }

  lemma {:induction false} RefsUpToBound(nodes: seq<Node>, n: nat)
    requires n <= |nodes|
    ensures |RefsUpTo(nodes, n)| <= n
  {
    if n > 0 {
      RefsUpToBound(nodes, n - 1);
      assert RefsUpTo(nodes, n) == RefsUpTo(nodes, n - 1) + {nodes[n - 1].order.ref};
    }
  }

  lemma {:induction false} RefsUpToExact(contents: Contents, nodes: seq<Node>, n: nat)
    requires n <= |nodes| && forall i: nat | i < n :: Mapped(contents, nodes, i)
    ensures |RefsUpTo(nodes, n)| == n && RefsUpTo(nodes, n) <= contents.Keys
  {
    if n > 0 {
      RefsUpToExact(contents, nodes, n - 1);
      assert Mapped(contents, nodes, n - 1);
      forall i: nat | i < n - 1 ensures nodes[i].order.ref != nodes[n - 1].order.ref {
        assert Mapped(contents, nodes, i);
      }
      assert RefsUpTo(nodes, n) == RefsUpTo(nodes, n - 1) + {nodes[n - 1].order.ref};
    }
  }

  /** No more live orders than slots. */
  lemma LiveBound(contents: Contents, nodes: seq<Node>, place: seq<Place>)
    requires IndexOK(contents, nodes, place)
    ensures |contents| <= |nodes|
  {
    forall r | r in contents ensures r in RefsUpTo(nodes, |nodes|) {
      assert Located(contents, nodes, place, r);
    }
    RefsUpToBound(nodes, |nodes|);
    SubsetCount(contents.Keys, RefsUpTo(nodes, |nodes|));
  }

  /** As many live orders as slots, if every slot is queued. */
  lemma LiveExact(contents: Contents, nodes: seq<Node>, place: seq<Place>)
    requires IndexOK(contents, nodes, place)
    requires forall n | 0 <= n < |nodes| :: place[n].Queued?
    ensures |contents| == |nodes|
  {
    LiveBound(contents, nodes, place);
    forall i: nat | i < |nodes| ensures Mapped(contents, nodes, i) { }
    RefsUpToExact(contents, nodes, |nodes|);
    SubsetCount(RefsUpTo(nodes, |nodes|), contents.Keys);
  }
}
