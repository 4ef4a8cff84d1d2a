/**
  The intrusive FIFO queues of one side of a book. `ranked` lists the side's slots in
  price-time priority; the queue of one price is a maximal run of equal prices in it, and
  the nodes of a run are linked through `next` and `prev`.
 */
module Queues {
  import opened Words
  import opened BookSpec
  import opened OrderPools

  function Price(nodes: seq<Node>, n: nat): (p: uint32)
    requires n < |nodes|
  {
    nodes[n].order.price
  }

  /** `ranked` lists exactly the slots queued on side `id`, each once. */
  ghost predicate Members(id: nat, ranked: seq<uint32>, nodes: seq<Node>, place: seq<Place>) {
    && |place| == |nodes| <= INVALID
    && Distinct(ranked)
    && (forall i | 0 <= i < |ranked| :: ranked[i] < |nodes| && place[ranked[i]] == Queued(id))
    && (forall n | 0 <= n < |nodes| && place[n] == Queued(id) :: n in ranked)
  }

  ghost predicate Within(ranked: seq<uint32>, nodes: seq<Node>) {
    forall i | 0 <= i < |ranked| :: ranked[i] < |nodes|
  }

  /** Entry j is not better priced than entry i. */
  ghost predicate NotBetter(bid: bool, ranked: seq<uint32>, nodes: seq<Node>, i: nat, j: nat)
    requires Within(ranked, nodes) && i < |ranked| && j < |ranked|
  {
    !Better(bid, Price(nodes, ranked[j]), Price(nodes, ranked[i]))
  }

  ghost predicate Sorted(bid: bool, ranked: seq<uint32>, nodes: seq<Node>)
    requires Within(ranked, nodes)
  {
    forall i: nat, j: nat {:trigger NotBetter(bid, ranked, nodes, i, j)} | i <= j < |ranked| ::
      NotBetter(bid, ranked, nodes, i, j)
  }

  /** Neighbour of entry i at the same price, or INVALID. */
  ghost function After(ranked: seq<uint32>, nodes: seq<Node>, i: nat): (n: uint32)
    requires Within(ranked, nodes) && i < |ranked|
  {
    if i + 1 < |ranked| && Price(nodes, ranked[i + 1]) == Price(nodes, ranked[i]) then ranked[i + 1] else INVALID
  }

  ghost function Before(ranked: seq<uint32>, nodes: seq<Node>, i: nat): (n: uint32)
    requires Within(ranked, nodes) && i < |ranked|
  {
    if 0 < i && Price(nodes, ranked[i - 1]) == Price(nodes, ranked[i]) then ranked[i - 1] else INVALID
  }

  ghost predicate LinkedAt(ranked: seq<uint32>, nodes: seq<Node>, i: nat)
    requires Within(ranked, nodes) && i < |ranked|
  {
    && nodes[ranked[i]].next == After(ranked, nodes, i)
    && nodes[ranked[i]].prev == Before(ranked, nodes, i)
  }

  ghost predicate Linked(ranked: seq<uint32>, nodes: seq<Node>)
    requires Within(ranked, nodes)
  {
    forall i {:trigger LinkedAt(ranked, nodes, i)} | 0 <= i < |ranked| :: LinkedAt(ranked, nodes, i)
  }

  /** The queues of one side: membership, priority order and links. */
  ghost predicate Chain(id: nat, bid: bool, ranked: seq<uint32>, nodes: seq<Node>, place: seq<Place>) {
    && Members(id, ranked, nodes, place)
    && Sorted(bid, ranked, nodes)
    && Linked(ranked, nodes)
  }

  // ---- Linking at the tail of a price ----

  function LinkNodes(nodes: seq<Node>, tail: uint32, idx: uint32): (r: seq<Node>)
    requires idx < |nodes| && (tail == INVALID || tail < |nodes|)
  {
    var linked := nodes[idx := nodes[idx].(prev := tail, next := INVALID)];
    if tail != INVALID then linked[tail := linked[tail].(next := idx)] else linked
  }

  /** `k` splits the list into "at least as good as p" and "worse than p". */
  ghost predicate Splits(bid: bool, ranked: seq<uint32>, nodes: seq<Node>, p: uint32, k: nat)
    requires Within(ranked, nodes)
  {
    && k <= |ranked|
    && (forall i | 0 <= i < k :: !Better(bid, p, Price(nodes, ranked[i])))
    && (forall i | k <= i < |ranked| :: Better(bid, p, Price(nodes, ranked[i])))
  }

  /** Last slot queued at price p, given the split point of p. */
  ghost function TailAt(ranked: seq<uint32>, nodes: seq<Node>, p: uint32, k: nat): (n: uint32)
    requires Within(ranked, nodes) && k <= |ranked|
  {
    if k > 0 && Price(nodes, ranked[k - 1]) == p then ranked[k - 1] else INVALID
  }

  lemma LinkMembers(id: nat, ranked: seq<uint32>, nodes: seq<Node>, place: seq<Place>, tail: uint32, idx: uint32,
                    k: nat)
    requires Members(id, ranked, nodes, place) && k <= |ranked|
    requires idx < |nodes| && place[idx] != Queued(id)
    requires tail == INVALID || tail < |nodes|
    ensures Members(id, InsertAt(ranked, k, idx), LinkNodes(nodes, tail, idx), place[idx := Queued(id)])
  {
    var r := InsertAt(ranked, k, idx);
    var place' := place[idx := Queued(id)];
    forall i: nat, j: nat | i < |r| && j < |r| ensures Differ(r, i, j) {
      if i != k && j != k {
        assert Differ(ranked, if i < k then i else i - 1, if j < k then j else j - 1);
      }
    }
    forall n | 0 <= n < |nodes| && place'[n] == Queued(id) ensures n in r {
      if n != idx {
        var i :| 0 <= i < |ranked| && ranked[i] == n;
        assert r[if i < k then i else i + 1] == n;
      } else {
        assert r[k] == n;
      }
    }
  }

  /** Links of entry i after linking at position k. */
  lemma LinkEntry(bid: bool, ranked: seq<uint32>, nodes: seq<Node>, idx: uint32, k: nat, i: nat)
    requires Within(ranked, nodes) && Linked(ranked, nodes) && Distinct(ranked) && |nodes| <= INVALID
    requires idx < |nodes| && (forall j | 0 <= j < |ranked| :: ranked[j] != idx)
    requires Splits(bid, ranked, nodes, Price(nodes, idx), k)
    requires i <= |ranked|
    ensures var r := InsertAt(ranked, k, idx);
            var nodes' := LinkNodes(nodes, TailAt(ranked, nodes, Price(nodes, idx), k), idx);
            && Within(r, nodes')
            && LinkedAt(r, nodes', i)
  {
    var r := InsertAt(ranked, k, idx);
    var tail := TailAt(ranked, nodes, Price(nodes, idx), k);
    var nodes' := LinkNodes(nodes, tail, idx);
    if i + 1 < k {
      assert LinkedAt(ranked, nodes, i) && Differ(ranked, i, k - 1);
      assert nodes'[r[i]] == nodes[ranked[i]];
    } else if i < k {
      assert LinkedAt(ranked, nodes, i);
      assert nodes'[r[i]].prev == nodes[ranked[i]].prev;
    } else if i > k {
      assert LinkedAt(ranked, nodes, i - 1) && (k > 0 ==> Differ(ranked, i - 1, k - 1));
      assert nodes'[r[i]] == nodes[ranked[i - 1]];
    }
  }

  lemma LinkChain(id: nat, bid: bool, ranked: seq<uint32>, nodes: seq<Node>, place: seq<Place>, idx: uint32, k: nat)
    requires Chain(id, bid, ranked, nodes, place)
    requires idx < |nodes| && place[idx] != Queued(id)
    requires Splits(bid, ranked, nodes, Price(nodes, idx), k)
    ensures var tail := TailAt(ranked, nodes, Price(nodes, idx), k);
            Chain(id, bid, InsertAt(ranked, k, idx), LinkNodes(nodes, tail, idx), place[idx := Queued(id)])
  {
    var tail := TailAt(ranked, nodes, Price(nodes, idx), k);
    LinkMembers(id, ranked, nodes, place, tail, idx, k);
    forall i | 0 <= i <= |ranked| {
      LinkEntry(bid, ranked, nodes, idx, k, i);
    }
    LinkSorted(bid, ranked, nodes, idx, k, LinkNodes(nodes, tail, idx));
  }

  lemma LinkSorted(bid: bool, ranked: seq<uint32>, nodes: seq<Node>, idx: uint32, k: nat, nodes': seq<Node>)
    requires Within(ranked, nodes) && Sorted(bid, ranked, nodes) && idx < |nodes|
    requires Splits(bid, ranked, nodes, Price(nodes, idx), k)
    requires |nodes'| == |nodes| && forall n | 0 <= n < |nodes| :: nodes'[n].order == nodes[n].order
    ensures Within(InsertAt(ranked, k, idx), nodes') && Sorted(bid, InsertAt(ranked, k, idx), nodes')
  {
    var r := InsertAt(ranked, k, idx);
    forall i: nat, j: nat | i <= j < |r| ensures NotBetter(bid, r, nodes', i, j) {
      if i != k && j != k {
        assert NotBetter(bid, ranked, nodes, if i < k then i else i - 1, if j < k then j else j - 1);
      }
    }
  }

  // ---- Unlinking ----

  function UnlinkNodes(nodes: seq<Node>, idx: uint32): (r: seq<Node>)
    requires idx < |nodes|
    requires nodes[idx].prev == INVALID || nodes[idx].prev < |nodes|
    requires nodes[idx].next == INVALID || nodes[idx].next < |nodes|
  {
    var prev, next := nodes[idx].prev, nodes[idx].next;
    var left := if prev != INVALID then nodes[prev := nodes[prev].(next := next)] else nodes;
    if next != INVALID then left[next := left[next].(prev := prev)] else left
  }

  lemma UnlinkMembers(id: nat, ranked: seq<uint32>, nodes: seq<Node>, nodes': seq<Node>, place: seq<Place>, k: nat)
    requires Members(id, ranked, nodes, place) && k < |ranked| && |nodes'| == |nodes|
    ensures Members(id, RemoveAt(ranked, k), nodes', place[ranked[k] := Detached])
  {
    var r, place' := RemoveAt(ranked, k), place[ranked[k] := Detached];
    forall i: nat, j: nat | i < |r| && j < |r| ensures Differ(r, i, j) {
      assert Differ(ranked, if i < k then i else i + 1, if j < k then j else j + 1);
    }
    forall i | 0 <= i < |r| ensures r[i] != ranked[k] {
      assert Differ(ranked, if i < k then i else i + 1, k);
    }
    forall n | 0 <= n < |nodes| && place'[n] == Queued(id) ensures n in r {
      var i :| 0 <= i < |ranked| && ranked[i] == n;
      assert r[if i < k then i else i - 1] == n;
    }
  }

  /** Position k can be unlinked: its neighbours at one price are not separated by another. */
  ghost predicate Removable(ranked: seq<uint32>, nodes: seq<Node>, k: nat) {
    && Within(ranked, nodes) && Linked(ranked, nodes) && Distinct(ranked) && |nodes| <= INVALID
    && k < |ranked| && LinkedAt(ranked, nodes, k)
    && (0 < k < |ranked| - 1 && Price(nodes, ranked[k - 1]) == Price(nodes, ranked[k + 1]) ==>
          Price(nodes, ranked[k]) == Price(nodes, ranked[k + 1]))
  }

  /** Links of the entries ahead of position k after unlinking it. */
  lemma UnlinkAhead(ranked: seq<uint32>, nodes: seq<Node>, k: nat, i: nat)
    requires Removable(ranked, nodes, k) && i < k
    ensures var r, nodes' := RemoveAt(ranked, k), UnlinkNodes(nodes, ranked[k]);
            Within(r, nodes') && LinkedAt(r, nodes', i)
  {
    var r, nodes' := RemoveAt(ranked, k), UnlinkNodes(nodes, ranked[k]);
    assert LinkedAt(ranked, nodes, i) && Differ(ranked, i, k);
    assert k > 0 ==> Differ(ranked, i, k - 1);
    assert k + 1 < |ranked| ==> Differ(ranked, i, k + 1);
    if i + 1 < k {
      assert nodes'[r[i]] == nodes[ranked[i]];
    } else {
      assert nodes'[r[i]].prev == nodes[ranked[i]].prev;
    }
  }

  /** Links of the entries behind position k after unlinking it. */
  lemma UnlinkBehind(ranked: seq<uint32>, nodes: seq<Node>, k: nat, i: nat)
    requires Removable(ranked, nodes, k) && k <= i < |ranked| - 1
    ensures var r, nodes' := RemoveAt(ranked, k), UnlinkNodes(nodes, ranked[k]);
            Within(r, nodes') && LinkedAt(r, nodes', i)
  {
    var r, nodes' := RemoveAt(ranked, k), UnlinkNodes(nodes, ranked[k]);
    assert LinkedAt(ranked, nodes, i + 1) && Differ(ranked, i + 1, k);
    assert k > 0 ==> Differ(ranked, i + 1, k - 1);
    assert k + 1 < |ranked| ==> Differ(ranked, i + 1, k + 1);
    if i == k {
      assert nodes'[r[i]].next == nodes[ranked[i + 1]].next;
    } else {
      assert nodes'[r[i]] == nodes[ranked[i + 1]];
    }
  }

  lemma UnlinkChain(id: nat, bid: bool, ranked: seq<uint32>, nodes: seq<Node>, place: seq<Place>, k: nat)
    requires Chain(id, bid, ranked, nodes, place) && k < |ranked|
    ensures nodes[ranked[k]].prev == INVALID || nodes[ranked[k]].prev < |nodes|
    ensures nodes[ranked[k]].next == INVALID || nodes[ranked[k]].next < |nodes|
    ensures Chain(id, bid, RemoveAt(ranked, k), UnlinkNodes(nodes, ranked[k]), place[ranked[k] := Detached])
  {
    assert LinkedAt(ranked, nodes, k);
    if 0 < k < |ranked| - 1 {
      assert NotBetter(bid, ranked, nodes, k - 1, k) && NotBetter(bid, ranked, nodes, k, k + 1);
    }
    var nodes' := UnlinkNodes(nodes, ranked[k]);
    UnlinkMembers(id, ranked, nodes, nodes', place, k);
    forall i | 0 <= i < |ranked| - 1
      ensures Within(RemoveAt(ranked, k), nodes') && LinkedAt(RemoveAt(ranked, k), nodes', i)
    {
      if i < k { UnlinkAhead(ranked, nodes, k, i); } else { UnlinkBehind(ranked, nodes, k, i); }
    }
    UnlinkSorted(bid, ranked, nodes, k, nodes');
  }

  lemma UnlinkSorted(bid: bool, ranked: seq<uint32>, nodes: seq<Node>, k: nat, nodes': seq<Node>)
    requires Within(ranked, nodes) && Sorted(bid, ranked, nodes) && k < |ranked|
    requires |nodes'| == |nodes| && forall n | 0 <= n < |nodes| :: nodes'[n].order == nodes[n].order
    ensures Within(RemoveAt(ranked, k), nodes') && Sorted(bid, RemoveAt(ranked, k), nodes')
  {
    var r := RemoveAt(ranked, k);
    forall i: nat, j: nat | i <= j < |r| ensures NotBetter(bid, r, nodes', i, j) {
      assert NotBetter(bid, ranked, nodes, if i < k then i else i + 1, if j < k then j else j + 1);
    }
  }

  // ---- Heads and tails of price levels ----

  /** A price level; empty when head is INVALID. */
  datatype Level = Level(head: uint32, tail: uint32)

  const EMPTY_LEVEL := Level(INVALID, INVALID)

  ghost predicate On(id: nat, p: int, n: uint32, nodes: seq<Node>, place: seq<Place>)
    requires |place| == |nodes|
  {
    n < |nodes| && place[n] == Queued(id) && Price(nodes, n) == p
  }

  /** A level names the first and the last slot queued at price p, or neither. */
  ghost predicate LevelIs(id: nat, lvl: Level, p: int, nodes: seq<Node>, place: seq<Place>)
    requires |place| == |nodes|
  {
    if lvl.head == INVALID then
      lvl.tail == INVALID && (forall n | 0 <= n < |nodes| && place[n] == Queued(id) :: Price(nodes, n) != p)
    else
      && On(id, p, lvl.head, nodes, place) && nodes[lvl.head].prev == INVALID
      && On(id, p, lvl.tail, nodes, place) && nodes[lvl.tail].next == INVALID
  }

  /** On side `id`, only slots at price p differ between the two arenas. */
  ghost predicate OnlyPrice(id: nat, p: int, nodes: seq<Node>, place: seq<Place>, nodes': seq<Node>,
                            place': seq<Place>) {
    && |place| == |nodes| == |nodes'| == |place'|
    && (forall n | 0 <= n < |nodes| && place[n] == Queued(id) && Price(nodes, n) != p ::
          place'[n] == Queued(id) && nodes'[n] == nodes[n])
    && (forall n | 0 <= n < |nodes| && place'[n] == Queued(id) && Price(nodes', n) != p ::
          place[n] == Queued(id) && nodes'[n] == nodes[n])
  }

  lemma OtherLevel(id: nat, p: int, nodes: seq<Node>, place: seq<Place>, nodes': seq<Node>, place': seq<Place>,
                   lvl: Level, q: int)
    requires OnlyPrice(id, p, nodes, place, nodes', place') && q != p
    requires LevelIs(id, lvl, q, nodes, place)
    ensures LevelIs(id, lvl, q, nodes', place')
  {
  }

  /** Side `id` has the same slots, prices and links in both arenas; the second may be larger. */
  ghost predicate SameQueues(id: nat, nodes: seq<Node>, place: seq<Place>, nodes': seq<Node>, place': seq<Place>) {
    && |place| == |nodes| <= |nodes'| == |place'| <= INVALID
    && (forall n | 0 <= n < |nodes| && place[n] == Queued(id) ::
          && place'[n] == Queued(id) && Price(nodes', n) == Price(nodes, n)
          && nodes'[n].next == nodes[n].next && nodes'[n].prev == nodes[n].prev)
    && (forall n | 0 <= n < |nodes'| && place'[n] == Queued(id) :: n < |nodes| && place[n] == Queued(id))
  }

  lemma ChainFrame(id: nat, bid: bool, ranked: seq<uint32>, nodes: seq<Node>, place: seq<Place>,
                   nodes': seq<Node>, place': seq<Place>)
    requires Chain(id, bid, ranked, nodes, place) && SameQueues(id, nodes, place, nodes', place')
    ensures Chain(id, bid, ranked, nodes', place')
  {
    forall i: nat, j: nat | i <= j < |ranked| ensures NotBetter(bid, ranked, nodes', i, j) {
      assert NotBetter(bid, ranked, nodes, i, j);
    }
    forall i | 0 <= i < |ranked| ensures LinkedAt(ranked, nodes', i) {
      assert LinkedAt(ranked, nodes, i);
    }
  }

  lemma LevelFrame(id: nat, lvl: Level, p: int, nodes: seq<Node>, place: seq<Place>, nodes': seq<Node>,
                   place': seq<Place>)
    requires |place| == |nodes| && LevelIs(id, lvl, p, nodes, place) && SameQueues(id, nodes, place, nodes', place')
    ensures LevelIs(id, lvl, p, nodes', place')
  {
  }

  /** The orders of a side in priority order. */
  ghost function OrdersOf(ranked: seq<uint32>, nodes: seq<Node>): (r: seq<Order>)
    requires Within(ranked, nodes)
    ensures |r| == |ranked|
    ensures forall i {:trigger r[i]} | 0 <= i < |r| :: r[i] == nodes[ranked[i]].order
  {
    seq(|ranked|, i requires 0 <= i < |ranked| => nodes[ranked[i]].order)
  }

  lemma OrdersRanked(bid: bool, ranked: seq<uint32>, nodes: seq<Node>)
    requires Within(ranked, nodes) && Sorted(bid, ranked, nodes)
    ensures Ranked(bid, OrdersOf(ranked, nodes))
  {
    var orders := OrdersOf(ranked, nodes);
    forall i: nat, j: nat | i <= j < |orders| ensures Behind(bid, orders, i, j) {
      assert NotBetter(bid, ranked, nodes, i, j);
    }
  }

  lemma InsertSplits(bid: bool, ranked: seq<uint32>, nodes: seq<Node>, p: uint32)
    requires Within(ranked, nodes) && Sorted(bid, ranked, nodes)
    ensures Splits(bid, ranked, nodes, p, InsertPos(bid, OrdersOf(ranked, nodes), p))
  {
    var orders := OrdersOf(ranked, nodes);
    OrdersRanked(bid, ranked, nodes);
    InsertPosSplits(bid, orders, p);
    forall i | 0 <= i < |ranked| ensures Price(nodes, ranked[i]) == orders[i].price { }
  }

  /** A level's tail is where a new order of its price belongs. */
  lemma TailSplits(id: nat, bid: bool, ranked: seq<uint32>, nodes: seq<Node>, place: seq<Place>, lvl: Level, p: uint32)
    returns (k: nat)
    requires Chain(id, bid, ranked, nodes, place)
    requires LevelIs(id, lvl, p, nodes, place)
    ensures k == InsertPos(bid, OrdersOf(ranked, nodes), p)
    ensures Splits(bid, ranked, nodes, p, k) && lvl.tail == TailAt(ranked, nodes, p, k)
  {
    k := InsertPos(bid, OrdersOf(ranked, nodes), p);
    InsertSplits(bid, ranked, nodes, p);
    if lvl.tail != INVALID {
      var b: nat :| b < |ranked| && ranked[b] == lvl.tail;
      assert LinkedAt(ranked, nodes, b);
      assert b + 1 < |ranked| ==> NotBetter(bid, ranked, nodes, b, b + 1);
    }
  }

  /** The head of the best non-empty level is the front of the priority list. */
  lemma HeadIsFront(id: nat, bid: bool, ranked: seq<uint32>, nodes: seq<Node>, place: seq<Place>, lvl: Level, p: uint32)
    requires Chain(id, bid, ranked, nodes, place)
    requires LevelIs(id, lvl, p, nodes, place) && lvl.head != INVALID
    requires forall i | 0 <= i < |ranked| :: !Better(bid, Price(nodes, ranked[i]), p)
    ensures ranked != [] && lvl.head == ranked[0]
  {
    var a: nat :| a < |ranked| && ranked[a] == lvl.head;
    assert LinkedAt(ranked, nodes, a);
    var left := if a == 0 then 0 else a - 1;
    assert NotBetter(bid, ranked, nodes, left, a);
  }

  /** Linking at the tail of level p. */
  lemma LinkLevel(id: nat, nodes: seq<Node>, place: seq<Place>, lvl: Level, idx: uint32)
    requires |place| == |nodes| <= INVALID
    requires idx < |nodes| && place[idx] != Queued(id)
    requires LevelIs(id, lvl, Price(nodes, idx), nodes, place)
    ensures var nodes', place' := LinkNodes(nodes, lvl.tail, idx), place[idx := Queued(id)];
            var lvl' := Level(if lvl.tail == INVALID then idx else lvl.head, idx);
            && OnlyPrice(id, Price(nodes, idx), nodes, place, nodes', place')
            && LevelIs(id, lvl', Price(nodes, idx), nodes', place')
  {
  }

  /** A level without its slot at position k: what `unlink` leaves. */
  function UnlinkedLevel(lvl: Level, node: Node): (r: Level) {
    Level(if node.prev != INVALID then lvl.head else node.next, if node.next != INVALID then lvl.tail else node.prev)
  }

  /** The price-level neighbours of an entry, and that they point back. */
  lemma Neighbours(id: nat, bid: bool, ranked: seq<uint32>, nodes: seq<Node>, place: seq<Place>, k: nat)
    requires Chain(id, bid, ranked, nodes, place) && k < |ranked|
    ensures var p, node := Price(nodes, ranked[k]), nodes[ranked[k]];
            && (node.prev != INVALID ==> On(id, p, node.prev, nodes, place) && nodes[node.prev].next == ranked[k])
            && (node.next != INVALID ==> On(id, p, node.next, nodes, place) && nodes[node.next].prev == ranked[k])
            && (node.prev == node.next == INVALID ==>
                  forall n | 0 <= n < |nodes| && place[n] == Queued(id) && n != ranked[k] :: Price(nodes, n) != p)
  {
    assert LinkedAt(ranked, nodes, k);
    assert k > 0 ==> LinkedAt(ranked, nodes, k - 1);
    assert k + 1 < |ranked| ==> LinkedAt(ranked, nodes, k + 1);
    var p, node := Price(nodes, ranked[k]), nodes[ranked[k]];
    if node.prev == node.next == INVALID {
      forall n | 0 <= n < |nodes| && place[n] == Queued(id) && n != ranked[k] ensures Price(nodes, n) != p {
        var i: nat :| i < |ranked| && ranked[i] == n;
        if i < k {
          assert NotBetter(bid, ranked, nodes, i, k - 1) && NotBetter(bid, ranked, nodes, k - 1, k);
        } else {
          assert NotBetter(bid, ranked, nodes, k, k + 1) && NotBetter(bid, ranked, nodes, k + 1, i);
        }
      }
    }
  }

  lemma UnlinkLevel(id: nat, bid: bool, ranked: seq<uint32>, nodes: seq<Node>, place: seq<Place>, lvl: Level, k: nat)
    requires Chain(id, bid, ranked, nodes, place) && k < |ranked|
    requires LevelIs(id, lvl, Price(nodes, ranked[k]), nodes, place)
    ensures nodes[ranked[k]].prev == INVALID || nodes[ranked[k]].prev < |nodes|
    ensures nodes[ranked[k]].next == INVALID || nodes[ranked[k]].next < |nodes|
    ensures var p := Price(nodes, ranked[k]);
            var nodes', place' := UnlinkNodes(nodes, ranked[k]), place[ranked[k] := Detached];
            && OnlyPrice(id, p, nodes, place, nodes', place')
            && LevelIs(id, UnlinkedLevel(lvl, nodes[ranked[k]]), p, nodes', place')
  {
    Neighbours(id, bid, ranked, nodes, place, k);
    UnlinkLocal(id, nodes, place, lvl, ranked[k]);
  }

  /** The same, from the neighbours of the unlinked slot alone. */
  lemma UnlinkLocal(id: nat, nodes: seq<Node>, place: seq<Place>, lvl: Level, idx: uint32)
    requires |place| == |nodes| <= INVALID && idx < |nodes| && place[idx] == Queued(id)
    requires LevelIs(id, lvl, Price(nodes, idx), nodes, place)
    requires var p, node := Price(nodes, idx), nodes[idx];
             && (node.prev != INVALID ==> On(id, p, node.prev, nodes, place) && nodes[node.prev].next == idx)
             && (node.next != INVALID ==> On(id, p, node.next, nodes, place) && nodes[node.next].prev == idx)
             && (node.prev == node.next == INVALID ==>
                   forall n | 0 <= n < |nodes| && place[n] == Queued(id) && n != idx :: Price(nodes, n) != p)
    ensures var p := Price(nodes, idx);
            var nodes', place' := UnlinkNodes(nodes, idx), place[idx := Detached];
            && OnlyPrice(id, p, nodes, place, nodes', place')
            && LevelIs(id, UnlinkedLevel(lvl, nodes[idx]), p, nodes', place')
  {
  }
}
