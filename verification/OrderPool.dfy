/**
  The arena of order nodes shared by every book. Free slots are chained through their own
  `next` field. `place` says, for each slot, which one list it is on.
 */
module OrderPools {
  import opened Words
  import opened BookSpec

  datatype Node = Node(order: Order, next: uint32, prev: uint32)

  /** Where a slot is: on the free list, in one side's queues, or between the two. */
  datatype Place = Free | Detached | Queued(side: nat)

  /** Element i of a list of indices, INVALID past its end. */
  function At(s: seq<uint32>, i: nat): (x: uint32) {
    if i < |s| then s[i] else INVALID
  }

  ghost predicate Differ<T>(s: seq<T>, i: nat, j: nat)
    requires i < |s| && j < |s|
  {
    s[i] == s[j] ==> i == j
  }

  ghost predicate Distinct<T>(s: seq<T>) {
    forall i: nat, j: nat {:trigger Differ(s, i, j)} | i < |s| && j < |s| :: Differ(s, i, j)
  }

  lemma DistinctTail<T>(s: seq<T>)
    requires Distinct(s) && s != []
    ensures Distinct(s[1..])
    ensures s[0] !in s[1..]
  {
    forall i: nat, j: nat | i < |s| - 1 && j < |s| - 1 ensures Differ(s[1..], i, j) {
      assert Differ(s, i + 1, j + 1);
    }
    forall i | 0 <= i < |s| - 1 ensures s[1..][i] != s[0] {
      assert Differ(s, 0, i + 1);
    }
  }

  lemma DistinctCons<T>(x: T, s: seq<T>)
    requires Distinct(s) && x !in s
    ensures Distinct([x] + s)
  {
    forall i: nat, j: nat | i <= |s| && j <= |s| ensures Differ([x] + s, i, j) {
      if i > 0 && j > 0 { assert Differ(s, i - 1, j - 1); }
    }
  }

  ghost predicate FreeLink(nodes: seq<Node>, freeList: seq<uint32>, i: nat)
    requires i < |freeList| && freeList[i] < |nodes|
  {
    nodes[freeList[i]].next == At(freeList, i + 1)
  }

  /** `freeList` lists exactly the free slots, each once, in `next` order from `freeHead`. */
  ghost predicate FreeChain(nodes: seq<Node>, place: seq<Place>, freeHead: uint32, freeList: seq<uint32>) {
    && |place| == |nodes| <= INVALID
    && Distinct(freeList)
    && (forall i | 0 <= i < |freeList| :: freeList[i] < |nodes| && place[freeList[i]] == Free)
    && (forall n | 0 <= n < |nodes| && place[n] == Free :: n in freeList)
    && freeHead == At(freeList, 0)
    && (forall i {:trigger FreeLink(nodes, freeList, i)} | 0 <= i < |freeList| :: FreeLink(nodes, freeList, i))
  }

  /** Only slots outside the free list, before and after, may differ. */
  lemma FreeChainFrame(nodes: seq<Node>, place: seq<Place>, nodes': seq<Node>, place': seq<Place>,
                       freeHead: uint32, freeList: seq<uint32>)
    requires FreeChain(nodes, place, freeHead, freeList)
    requires |place'| == |nodes'| == |nodes|
    requires forall n | 0 <= n < |nodes| :: place[n] == Free <==> place'[n] == Free
    requires forall n | 0 <= n < |nodes| && place[n] == Free :: nodes'[n].next == nodes[n].next
    ensures FreeChain(nodes', place', freeHead, freeList)
  {
    forall i | 0 <= i < |freeList| ensures FreeLink(nodes', freeList, i) {
      assert FreeLink(nodes, freeList, i);
    }
  }

  /** Taking the first free slot leaves the rest of the free list a chain. */
  lemma PopFree(nodes: seq<Node>, place: seq<Place>, freeHead: uint32, freeList: seq<uint32>, node: Node)
    requires FreeChain(nodes, place, freeHead, freeList) && freeList != []
    ensures FreeChain(nodes[freeHead := node], place[freeHead := Detached], nodes[freeHead].next, freeList[1..])
  {
    assert FreeLink(nodes, freeList, 0);
    var tail, nodes', place' := freeList[1..], nodes[freeHead := node], place[freeHead := Detached];
    forall n | 0 <= n < |nodes| && place'[n] == Free ensures n in tail {
      assert n in freeList && n != freeList[0];
    }
    DistinctTail(freeList);
    forall i | 0 <= i < |tail|
      ensures tail[i] < |nodes| && place'[tail[i]] == Free && FreeLink(nodes', tail, i)
    {
      assert FreeLink(nodes, freeList, i + 1);
      assert tail[i] == freeList[i + 1] != freeList[0];
    }
  }

  lemma PushFree(nodes: seq<Node>, place: seq<Place>, freeHead: uint32, freeList: seq<uint32>, idx: uint32)
    requires FreeChain(nodes, place, freeHead, freeList)
    requires idx < |nodes| && place[idx] != Free
    ensures FreeChain(nodes[idx := nodes[idx].(next := freeHead)], place[idx := Free], idx, [idx] + freeList)
  {
    var list, nodes', place' := [idx] + freeList, nodes[idx := nodes[idx].(next := freeHead)], place[idx := Free];
    forall n | 0 <= n < |nodes| && place'[n] == Free ensures n in list {
      assert n != idx ==> n in freeList;
    }
    DistinctCons(idx, freeList);
    forall i | 0 <= i < |list|
      ensures list[i] < |nodes| && place'[list[i]] == Free && FreeLink(nodes', list, i)
    {
      assert i > 0 ==> FreeLink(nodes, freeList, i - 1);
      assert i > 0 ==> list[i] == freeList[i - 1] != idx;
    }
  }

  class OrderPool {
    var nodes: seq<Node>
    var freeHead: uint32
    ghost var freeList: seq<uint32>
    ghost var place: seq<Place>

    ghost predicate Valid()
      reads this
    {
      FreeChain(nodes, place, freeHead, freeList)
    }

    constructor ()
      ensures Valid()
      ensures nodes == [] && freeList == []
    {
      nodes, freeHead := [], INVALID;
      freeList, place := [], [];
    }

    /** Reuses the most recently freed slot; grows the arena only when no slot is free. */
    method Allocate(order: Order) returns (idx: uint32)
      requires Valid()
      requires freeList == [] ==> |nodes| < INVALID
      modifies this
      ensures Valid()
      ensures idx == if old(freeList) != [] then old(freeList)[0] else old(|nodes|)
      ensures freeList == if old(freeList) != [] then old(freeList)[1..] else []
      ensures |nodes| == if old(freeList) != [] then old(|nodes|) else old(|nodes|) + 1
      ensures nodes[idx] == Node(order, INVALID, INVALID) && place[idx] == Detached
      ensures forall n | 0 <= n < old(|nodes|) && n != idx :: nodes[n] == old(nodes[n]) && place[n] == old(place[n])
    {
      if freeHead != INVALID {
        PopFree(nodes, place, freeHead, freeList, Node(order, INVALID, INVALID));
        idx := freeHead;
        freeHead := nodes[idx].next;
        freeList := freeList[1..];
        place := place[idx := Detached];
      } else {
        idx := |nodes|;
        nodes := nodes + [Node(order, INVALID, INVALID)];
        place := place + [Detached];
      }
      nodes := nodes[idx := Node(order, INVALID, INVALID)];
    }

    /** The caller has already unlinked the slot from its price level. */
    method FreeSlot(idx: uint32)
      requires Valid()
      requires idx < |nodes| && place[idx] == Detached
      modifies this
      ensures Valid()
      ensures freeList == [idx] + old(freeList)
      ensures |nodes| == old(|nodes|)
      ensures place == old(place)[idx := Free]
      ensures nodes[idx].order == old(nodes[idx].order)
      ensures forall n | 0 <= n < |nodes| && n != idx :: nodes[n] == old(nodes[n])
    {
      PushFree(nodes, place, freeHead, freeList, idx);
      nodes := nodes[idx := nodes[idx].(next := freeHead)];
      freeHead := idx;
      freeList := [idx] + freeList;
      place := place[idx := Free];
    }
  }
}
