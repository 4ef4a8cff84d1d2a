/**
  The engine: one arena, one order map and 65536 books, driven by messages. Its meaning is
  the abstract state of EngineSpec.
 */
module MatchingEngines {
  import opened Words
  import opened Collections
  import opened BookSpec
  import opened OrderPools
  import opened Queues
  import opened Ladders
  import opened OrderBooks
  import opened OrderIndex
  import opened EngineSpec
  import opened MessageLaws
  import opened FlatHashMaps

  /** Abstract state, arena and order map at one moment. */
  datatype Moment = Moment(st: EngineState, nodes: seq<Node>, place: seq<Place>, contents: Contents)

  /** Priority lists and arena, without the order map. */
  datatype Books = Books(lists: seq<seq<Order>>, nodes: seq<Node>, place: seq<Place>)

  ghost function BooksOf(b: Moment): (books: Books) {
    Books(b.st.sides, b.nodes, b.place)
  }

  /** Every slot is free or queued on one of the sides. */
  ghost predicate Settled(place: seq<Place>) {
    forall n | 0 <= n < |place| :: place[n] == Free || (place[n].Queued? && place[n].side < SIDES)
  }

  ghost predicate Indexes(b: Moment) {
    match b
    case Moment(st, nodes, place, contents) =>
      IndexOK(contents, nodes, place) && st.index == SidesOf(contents, nodes, place)
  }

  /** The state is sound, and the order map is exact for the arena and implies the state's index. */
  ghost predicate ExactMoment(b: Moment) {
    match b
    case Moment(st, nodes, place, _) => Sound(st) && Settled(place) && Indexes(b) && |nodes| < MAP_SLOTS
  }

  lemma MapKnows(b: Moment, ref: uint64)
    requires ExactMoment(b)
    ensures ref in b.contents <==> Knows(b.st, ref)
  {
    if ref in b.contents { assert KnownRef(b.st, ref); }
  }

  /** There are never more live orders than slots. */
  lemma LiveFits(b: Moment)
    requires ExactMoment(b)
    ensures |b.st.index| <= |b.nodes|
  {
    MapRoom(b);
    LiveBound(b.contents, b.nodes, b.place);
  }

  lemma MapRoom(b: Moment)
    requires Indexes(b)
    ensures |b.contents| == |b.st.index|
  {
    assert b.contents.Keys == b.st.index.Keys;
  }

  /** The moment after an order is placed, once the order map follows. */
  ghost function PlacedAt(b: Moment, locate: uint16, o: Order, idx: uint32, nodes: seq<Node>,
                          place: seq<Place>): (next: Moment)
    requires |b.st.sides| == SIDES
  {
    Moment(Placed(b.st, locate, o), nodes, place,
           Updated(b.contents, SweepFor(b.st, locate, o).removed, o.ref, locate, idx))
  }

  /** The moment after an order is withdrawn, once the order map follows. */
  ghost function WithdrawnAt(b: Moment, ref: uint64, nodes: seq<Node>, place: seq<Place>): (next: Moment)
    requires |b.st.sides| == SIDES && Knows(b.st, ref)
  {
    Moment(Withdraw(b.st, ref), nodes, place, b.contents - {ref})
  }

  /** Placing an order leads to an exact moment, and the arena has grown only if every slot is live. */
  lemma PlacedMoment(b: Moment, locate: uint16, o: Order, gone: seq<uint32>, idx: uint32, nodes: seq<Node>,
                     place: seq<Place>,
                     freeHead: uint32, freeList: seq<uint32>)
    requires ExactMoment(b) && ValidSide(o.side) && CanPlace(b.st, locate, o)
    requires var s := SweepFor(b.st, locate, o);
             RefsOfGone(s.removed, gone, b.nodes, b.place) && (idx != INVALID <==> s.left > 0)
    requires Relocated(SideNo(locate, o.side == BUY), o.ref, gone, idx, b.nodes, b.place, nodes, place)
    requires FreeChain(nodes, place, freeHead, freeList) && (|nodes| == |b.nodes| || freeList == [])
    ensures var next := PlacedAt(b, locate, o, idx, nodes, place);
            ExactMoment(next) && |nodes| == Max(|b.nodes|, |next.st.index|)
  {
    var st := Placed(b.st, locate, o);
    var c := Updated(b.contents, SweepFor(b.st, locate, o).removed, o.ref, locate, idx);
    PlacedIndex(b, locate, o, gone, idx, nodes, place);
    PlaceSound(b.st, locate, o);
    ArenaSize(Moment(st, nodes, place, c), |b.nodes|, freeHead, freeList);
  }

  /** The arena is exactly as large as the most orders that were ever live at once. */
  lemma ArenaSize(b: Moment, before: nat, freeHead: uint32, freeList: seq<uint32>)
    requires Indexes(b) && Settled(b.place) && before <= |b.nodes|
    requires FreeChain(b.nodes, b.place, freeHead, freeList)
    requires |b.nodes| == before || freeList == []
    ensures |b.nodes| == Max(before, |b.st.index|)
  {
    LiveBound(b.contents, b.nodes, b.place);
    MapRoom(b);
    if freeList == [] {
      forall n | 0 <= n < |b.nodes| ensures b.place[n].Queued? { }
      LiveExact(b.contents, b.nodes, b.place);
    }
  }

  /** Changing a share count leaves references, places and so the order map alone. */
  lemma SharesMoment(b: Moment, ref: uint64, shares: uint32)
    requires ExactMoment(b) && ref in b.contents && Knows(b.st, ref) && b.contents[ref].poolIdx < |b.nodes|
             && shares > 0
    ensures ExactMoment(b.(st := SetShares(b.st, ref, shares),
                           nodes := WithShares(b.nodes, b.contents[ref].poolIdx, shares)))
  {
    var nodes := WithShares(b.nodes, b.contents[ref].poolIdx, shares);
    SetSharesSound(b.st, ref, shares);
    forall r | r in b.contents ensures Located(b.contents, nodes, b.place, r) {
      assert Located(b.contents, b.nodes, b.place, r);
    }
    forall n: nat | n < |nodes| && b.place[n].Queued? ensures Mapped(b.contents, nodes, n) {
      assert Mapped(b.contents, b.nodes, n);
    }
  }

  lemma WithdrawnMoment(b: Moment, ref: uint64, nodes: seq<Node>, place: seq<Place>)
    requires ExactMoment(b) && ref in b.contents && Knows(b.st, ref) && |nodes| == |b.nodes|
    requires Relocated(0, 0, [b.contents[ref].poolIdx], INVALID, b.nodes, b.place, nodes, place)
    ensures ExactMoment(WithdrawnAt(b, ref, nodes, place))
  {
    WithdrawnIndex(b, ref, nodes, place);
    WithdrawSound(b.st, ref);
  }

  /** The updated order map is exact, and implies the index of the specification. */
  lemma PlacedIndex(b: Moment, locate: uint16, o: Order, gone: seq<uint32>, idx: uint32, nodes: seq<Node>,
                    place: seq<Place>)
    requires |b.st.sides| == SIDES && Indexes(b) && Settled(b.place) && CanPlace(b.st, locate, o)
    requires var s := SweepFor(b.st, locate, o);
             RefsOfGone(s.removed, gone, b.nodes, b.place) && (idx != INVALID <==> s.left > 0)
    requires Relocated(SideNo(locate, o.side == BUY), o.ref, gone, idx, b.nodes, b.place, nodes, place)
    ensures Settled(place)
    ensures var c := Updated(b.contents, SweepFor(b.st, locate, o).removed, o.ref, locate, idx);
            IndexOK(c, nodes, place) && SidesOf(c, nodes, place) == Placed(b.st, locate, o).index
  {
    var own, s := SideNo(locate, o.side == BUY), SweepFor(b.st, locate, o);
    RelocatedSettled(own, o.ref, gone, idx, b.nodes, b.place, nodes, place);
    assert (b.contents - RefSet(s.removed)).Keys == (b.st.index - RefSet(s.removed)).Keys;
    RelocatedIndex(b.contents, b.nodes, b.place, gone, s.removed, own, o.ref, locate, idx, nodes, place);
    RelocatedSides(b.contents, b.nodes, b.place, gone, s.removed, own, o.ref, locate, idx, nodes, place);
  }

  /** The order map without one reference is exact, and implies the index of the specification. */
  lemma WithdrawnIndex(b: Moment, ref: uint64, nodes: seq<Node>, place: seq<Place>)
    requires Indexes(b) && Settled(b.place) && ref in b.contents && Knows(b.st, ref)
    requires Relocated(0, 0, [b.contents[ref].poolIdx], INVALID, b.nodes, b.place, nodes, place)
    ensures Settled(place)
    ensures IndexOK(b.contents - {ref}, nodes, place)
    ensures SidesOf(b.contents - {ref}, nodes, place) == Withdraw(b.st, ref).index
  {
    var idx := b.contents[ref].poolIdx;
    assert Located(b.contents, b.nodes, b.place, ref);
    RelocatedSettled(0, 0, [idx], INVALID, b.nodes, b.place, nodes, place);
    RelocatedIndex(b.contents, b.nodes, b.place, [idx], [ref], 0, 0, 0, INVALID, nodes, place);
    RelocatedSides(b.contents, b.nodes, b.place, [idx], [ref], 0, 0, 0, INVALID, nodes, place);
    assert RefSet([ref]) == {ref};
  }

  lemma RelocatedSettled(own: nat, ref: uint64, gone: seq<uint32>, idx: uint32, nodes: seq<Node>, place: seq<Place>,
                         nodes': seq<Node>, place': seq<Place>)
    requires Relocated(own, ref, gone, idx, nodes, place, nodes', place') && Settled(place) && own < SIDES
    ensures Settled(place')
  {
    forall n | 0 <= n < |place'| ensures place'[n] == Free || (place'[n].Queued? && place'[n].side < SIDES) {
      if n != idx && place'[n] != Free {
        assert place'[n] != Detached;
      }
    }
  }

  lemma OneMoreErased(m: Contents, refs: seq<uint64>, i: nat)
    requires i < |refs|
    ensures m - RefSet(refs[..i]) - {refs[i]} == m - RefSet(refs[..i + 1])
  {
    assert refs[..i + 1] == refs[..i] + [refs[i]];
    assert RefSet(refs[..i + 1]) == RefSet(refs[..i]) + {refs[i]};
  }

  lemma MapSlotsPower()
    ensures PowerOfTwo(MAP_SLOTS)
  {
    assert PowerOfTwo(1);
    TimesEight(1); TimesEight(8); TimesEight(64); TimesEight(512);
    TimesEight(4096); TimesEight(32768); TimesEight(262144);
    assert PowerOfTwo(2097152) && 4 * 2097152 == MAP_SLOTS;
  }

  lemma TimesEight(n: nat)
    requires PowerOfTwo(n)
    ensures PowerOfTwo(8 * n)
  {
    assert PowerOfTwo(2 * n) && PowerOfTwo(4 * n);
  }

  /** A side as its constructor leaves it. */
  ghost predicate NewSide(s: LadderSide, k: nat)
    reads s
  {
    && s.id == k && s.bid == IsBid(k) && s.ranked == []
    && !s.anchored && s.overflow == [] && s.bestSlot == INVALID
  }

  class MatchingEngine {
    const pool: OrderPool
    const orderMap: FlatHashMap<OrderLocation>
    const orderBooks: seq<OrderBook>
    /** Side 2b is the bids of book b, side 2b + 1 its asks. */
    ghost const sides: seq<LadderSide>
    /** What the engine means. */
    ghost var st: EngineState

    ghost predicate BookWired(b: nat)
      requires |orderBooks| == BOOKS && |sides| == SIDES && b < BOOKS
    {
      && orderBooks[b].pool == pool
      && orderBooks[b].bids == sides[2 * b] && orderBooks[b].asks == sides[2 * b + 1]
    }

    ghost predicate SideWired(k: nat)
      requires k < |sides|
    {
      sides[k].id == k && sides[k].bid == IsBid(k)
    }

    ghost predicate Wired() {
      && |orderBooks| == BOOKS && |sides| == SIDES && orderMap.capacity == MAP_SLOTS
      && (forall b: nat {:trigger BookWired(b)} | b < BOOKS :: BookWired(b))
      && (forall k: nat {:trigger SideWired(k)} | k < SIDES :: SideWired(k))
    }

    ghost predicate SideFine(k: nat)
      requires k < |sides|
      reads pool, sides
    {
      sides[k].Valid(pool)
    }

    ghost predicate AllFine()
      reads pool, sides
    {
      forall k: nat {:trigger SideFine(k)} | k < |sides| :: SideFine(k)
    }

    ghost function ListAt(k: nat): (rest: seq<Order>)
      requires k < |sides| && SideFine(k)
      reads pool, sides
    {
      sides[k].Orders(pool)
    }

    /** Every side's priority list is the one in the abstract state. */
    ghost predicate ListsAre(lists: seq<seq<Order>>)
      requires |sides| == |lists| && AllFine()
      reads pool, sides
    {
      forall k: nat {:trigger ListAt(k)} | k < |sides| :: ListAt(k) == lists[k]
    }

    /** Books and arena stand for this moment. */
    ghost predicate Shows(b: Moment)
      reads pool, sides
    {
      match b
      case Moment(st, nodes, place, _) =>
        && Wired() && pool.Valid() && AllFine()
        && nodes == pool.nodes && place == pool.place
        && ExactMoment(b) && ListsAre(st.sides)
    }

    ghost function Now(): (b: Moment)
      requires orderMap.Valid()
      reads this, pool, orderMap, orderMap.table
    {
      Moment(st, pool.nodes, pool.place, orderMap.Contents())
    }

    ghost predicate Valid()
      reads this, pool, sides, orderMap, orderMap.table
    {
      match Entries()
      case None => false
      case Some(contents) => Shows(Moment(st, pool.nodes, pool.place, contents))
    }

    constructor ()
      ensures Valid() && fresh(pool) && fresh(orderMap) && fresh(orderMap.table)
      ensures forall k | 0 <= k < |sides| :: fresh(sides[k])
      ensures st == Initial() && pool.nodes == [] && |orderBooks| == 65536 && orderMap.capacity == 8388608
    {
      var p := new OrderPool();
      var hash := (key: uint64) => IdentityHash(key, MAP_SLOTS);
      HashesFit(MAP_SLOTS);
      MapSlotsPower();
      var m := new FlatHashMap(MAP_SLOTS, hash, OrderLocation(0, 0));
      var books, ss := BuildBooks(p);
      pool, orderMap := p, m;
      orderBooks, sides := books, ss;
      st := Initial();
      new;
      FreshValid();
    }

    /** All books, over one arena. */
    static method BuildBooks(p: OrderPool) returns (books: seq<OrderBook>, ghost ss: seq<LadderSide>)
      ensures |books| == BOOKS && |ss| == SIDES
      ensures forall k | 0 <= k < |ss| :: fresh(ss[k]) && NewSide(ss[k], k)
      ensures forall b: nat {:trigger books[b]} | b < BOOKS ::
                books[b].pool == p && books[b].bids == ss[2 * b] && books[b].asks == ss[2 * b + 1]
    {
      books, ss := [], [];
      for i := 0 to BOOKS
        invariant |books| == i && |ss| == 2 * i
        invariant forall k | 0 <= k < |ss| :: fresh(ss[k]) && NewSide(ss[k], k)
        invariant forall b: nat {:trigger books[b]} | b < i ::
                    books[b].pool == p && books[b].bids == ss[2 * b] && books[b].asks == ss[2 * b + 1]
      {
        var book := new OrderBook(p, i);
        books := books + [book];
        ss := ss + [book.bids, book.asks];
      }
    }

    /** The two sides of one book, in terms of side numbers. */
    lemma BookSides(locate: uint16, side: char)
      requires Wired()
      ensures var book, bid := orderBooks[locate], side == BUY;
              && book.pool == pool
              && book.Own(side) == sides[SideNo(locate, bid)] && book.Opp(side) == sides[SideNo(locate, !bid)]
              && book.Own(side).id == SideNo(locate, bid) && book.Opp(side).id == SideNo(locate, !bid)
              && book.Own(side).bid == bid && book.Opp(side).bid == !bid
              && book.bids.id == 2 * locate && book.asks.id == 2 * locate + 1 && book.bids.bid && !book.asks.bid
    {
      assert BookWired(locate) && SideWired(2 * locate) && SideWired(2 * locate + 1);
    }

    /** Side k, as it is now, is sound over an earlier arena. */
    ghost predicate FineOver(k: nat, nodes: seq<Node>, place: seq<Place>)
      requires k < |sides|
      reads sides
    {
      SideOK(sides[k].State(), sides[k].ranked, nodes, place, None)
    }

    /** Sides that an operation on sides a and b does not touch keep their lists. */
    lemma OthersKeep(a: nat, b: nat, nodes: seq<Node>, place: seq<Place>)
      requires Wired() && Elsewhere(a, b, nodes, place, pool.nodes, pool.place)
      requires forall k: nat {:trigger FineOver(k, nodes, place)} | k < SIDES && k != a && k != b ::
                 FineOver(k, nodes, place)
      ensures forall k: nat {:trigger SideFine(k)} | k < SIDES && k != a && k != b :: SideFine(k)
      ensures forall k: nat {:trigger ListAt(k)} | k < SIDES && k != a && k != b ::
                Within(sides[k].ranked, nodes) && ListAt(k) == OrdersOf(sides[k].ranked, nodes)
    {
      forall k: nat | k < SIDES && k != a && k != b
        ensures SideFine(k) && Within(sides[k].ranked, nodes) && ListAt(k) == OrdersOf(sides[k].ranked, nodes)
      {
        assert SideWired(k) && FineOver(k, nodes, place);
        ElsewhereSame(a, b, k, nodes, place, pool.nodes, pool.place);
        SideFrame(sides[k].State(), sides[k].ranked, nodes, place, pool.nodes, pool.place, None);
      }
    }

    /** What matching and resting an order does to its book, by side number. */
    ghost predicate Handled(order: Order, oppRest: seq<Order>, ownRest: seq<Order>, oppRest': seq<Order>,
                            ownRest': seq<Order>,
                            executed: seq<Execution>, removed: seq<uint64>, rests: bool)
    {
      var s := SweepFrom(order.side != BUY, oppRest, order.price, order.shares);
      && oppRest' == s.rest
      && ownRest' == (if s.left > 0 then Rest(order.side == BUY, ownRest, order.(shares := s.left)) else ownRest)
      && executed == s.executions && removed == s.removed && (rests <==> s.left > 0)
    }

    /** One book handles an order; its two sides are sound again. */
    method CallBook(locate: uint16, order: Order, scratch: EngineScratch, ghost own: nat, ghost opp: nat)
      returns (restingIdx: uint32, ghost gone: seq<uint32>)
      requires Wired() && pool.Valid() && AllFine() && |pool.nodes| < INVALID && ValidSide(order.side)
      requires own == SideNo(locate, order.side == BUY) && opp == SideNo(locate, order.side != BUY)
      requires scratch.executedOrders == [] && scratch.removedRefs == []
      modifies pool, orderBooks[locate].bids, orderBooks[locate].asks, scratch
      ensures pool.Valid() && SideFine(own) && SideFine(opp)
      ensures Handled(order, old(ListAt(opp)), old(ListAt(own)), ListAt(opp), ListAt(own),
                      scratch.executedOrders, scratch.removedRefs, restingIdx != INVALID)
      ensures |gone| == |scratch.removedRefs| && gone <= old(sides[opp].ranked)
      ensures Elsewhere(own, opp, old(pool.nodes), old(pool.place), pool.nodes, pool.place)
      ensures Relocated(own, order.ref, gone, restingIdx, old(pool.nodes), old(pool.place), pool.nodes, pool.place)
      ensures |pool.nodes| > old(|pool.nodes|) ==> |pool.nodes| == old(|pool.nodes|) + 1 && pool.freeList == []
    {
      BookSides(locate, order.side);
      assert SideFine(2 * locate) && SideFine(2 * locate + 1);
      var ok;
      ok, restingIdx, gone := orderBooks[locate].HandleOrder(order, scratch);
    }

    /** The same, with all other sides as they were. */
    method MatchAndRest(locate: uint16, order: Order, scratch: EngineScratch, ghost own: nat, ghost opp: nat)
      returns (restingIdx: uint32, ghost gone: seq<uint32>)
      requires Wired() && pool.Valid() && AllFine() && |pool.nodes| < INVALID && ValidSide(order.side)
      requires own == SideNo(locate, order.side == BUY) && opp == SideNo(locate, order.side != BUY)
      requires scratch.executedOrders == [] && scratch.removedRefs == []
      modifies pool, orderBooks[locate].bids, orderBooks[locate].asks, scratch
      ensures pool.Valid() && AllFine()
      ensures Handled(order, old(ListAt(opp)), old(ListAt(own)), ListAt(opp), ListAt(own),
                      scratch.executedOrders, scratch.removedRefs, restingIdx != INVALID)
      ensures forall k: nat {:trigger ListAt(k)} | k < SIDES && k != own && k != opp :: ListAt(k) == old(ListAt(k))
      ensures |gone| == |scratch.removedRefs| && gone <= old(sides[opp].ranked)
      ensures Relocated(own, order.ref, gone, restingIdx, old(pool.nodes), old(pool.place), pool.nodes, pool.place)
      ensures |pool.nodes| > old(|pool.nodes|) ==> |pool.nodes| == old(|pool.nodes|) + 1 && pool.freeList == []
    {
      ghost var nodes, place := pool.nodes, pool.place;
      BookSides(locate, order.side);
      restingIdx, gone := CallBook(locate, order, scratch, own, opp);
      forall k: nat | k < SIDES && k != own && k != opp
        ensures FineOver(k, nodes, place) && sides[k].ranked == old(sides[k].ranked)
      {
        assert SideWired(k) && old(SideFine(k));
      }
      OthersKeep(own, opp, nodes, place);
      assert SideFine(own) && SideFine(opp);
    }

    /** Books and arena alone, showing these lists. */
    ghost predicate BooksShow(lists: seq<seq<Order>>)
      reads pool, sides
    {
      Wired() && pool.Valid() && AllFine() && |lists| == SIDES && ListsAre(lists)
    }

    /** The same as a value: books and arena, if the books show these lists. */
    ghost function Showing(lists: seq<seq<Order>>): (shown: Option<Books>)
      reads pool, sides
    {
      if BooksShow(lists) then Some(Books(lists, pool.nodes, pool.place)) else None
    }

    /** The order map as a value. */
    ghost function Entries(): (entries: Option<Contents>)
      reads orderMap, orderMap.table
    {
      if orderMap.Valid() then Some(orderMap.Contents()) else None
    }

    /** Drops references from the order map, one by one. */
    method EraseAll(refs: seq<uint64>)
      requires orderMap.Valid() && |orderMap.Contents()| < orderMap.capacity
      modifies orderMap, orderMap.table
      ensures orderMap.Valid() && orderMap.Contents() == old(orderMap.Contents()) - RefSet(refs)
    {
      for i := 0 to |refs|
        invariant orderMap.Valid() && orderMap.Contents() == old(orderMap.Contents()) - RefSet(refs[..i])
      {
        FewerKeys(old(orderMap.Contents()), RefSet(refs[..i]));
        orderMap.Erase(refs[i]);
        OneMoreErased(old(orderMap.Contents()), refs, i);
      }
      assert refs[..|refs|] == refs;
    }

    /** Brings the order map up to date with what a book did. */
    method UpdateMap(refs: seq<uint64>, ref: uint64, locate: uint16, idx: uint32)
      requires orderMap.Valid() && |orderMap.Contents()| < orderMap.capacity
      requires idx != INVALID ==> ref != EMPTY
      modifies orderMap, orderMap.table
      ensures orderMap.Valid() && orderMap.Contents() == Updated(old(orderMap.Contents()), refs, ref, locate, idx)
    {
      EraseAll(refs);
      FewerKeys(old(orderMap.Contents()), RefSet(refs));
      if idx != INVALID {
        orderMap.Insert(ref, OrderLocation(locate, idx));
      }
    }

    /** The same, noting that books and arena are not involved. */
    method Reindex(refs: seq<uint64>, ref: uint64, locate: uint16, idx: uint32, ghost lists: seq<seq<Order>>)
      requires Entries().Some? && |Entries().value| < orderMap.capacity
      requires idx != INVALID ==> ref != EMPTY
      modifies orderMap, orderMap.table
      ensures Entries() == Some(Updated(old(Entries()).value, refs, ref, locate, idx))
      ensures Showing(lists) == old(Showing(lists))
    {
      assert forall o: object | o == pool || o in sides :: o != orderMap && o != orderMap.table;
      UpdateMap(refs, ref, locate, idx);
    }

    method EraseRef(ref: uint64, ghost lists: seq<seq<Order>>)
      requires Entries().Some? && |Entries().value| < orderMap.capacity
      modifies orderMap, orderMap.table
      ensures Entries() == Some(old(Entries()).value - {ref})
      ensures Showing(lists) == old(Showing(lists))
    {
      assert forall o: object | o == pool || o in sides :: o != orderMap && o != orderMap.table;
      EraseEntry(ref);
    }

    method EraseEntry(ref: uint64)
      requires Entries().Some? && |Entries().value| < orderMap.capacity
      modifies orderMap, orderMap.table
      ensures Entries() == Some(old(Entries()).value - {ref})
    {
      orderMap.Erase(ref);
    }

    /** Moves on to an exact moment that books, arena and order map already stand for. */
    ghost method Advance(next: Moment)
      requires ExactMoment(next)
      requires Entries() == Some(next.contents) && Showing(next.st.sides) == Some(BooksOf(next))
      modifies this
      ensures Valid() && st == next.st && |pool.nodes| == |next.nodes|
    {
      st := next.st;
      assert next == Now();
      assert Showing(next.st.sides) == Some(BooksOf(next));
    }

    lemma HandledLists(before: EngineState, locate: uint16, o: Order, executed: seq<Execution>, removed: seq<uint64>,
                       rests: bool)
      requires |before.sides| == SIDES && |sides| == SIDES && AllFine()
      requires var own, opp := SideNo(locate, o.side == BUY), SideNo(locate, o.side != BUY);
               && Handled(o, before.sides[opp], before.sides[own], ListAt(opp), ListAt(own), executed, removed, rests)
               && (forall k: nat {:trigger ListAt(k)} | k < SIDES && k != own && k != opp ::
                     ListAt(k) == before.sides[k])
      ensures ListsAre(Placed(before, locate, o).sides)
    {
    }

    /** Matches and rests an order, and keeps the order map exact. */
    method PlaceOrder(locate: uint16, order: Order, scratch: EngineScratch)
      requires Valid() && ValidSide(order.side) && CanPlace(st, locate, order)
      requires scratch.executedOrders == [] && scratch.removedRefs == []
      modifies this, pool, orderMap, orderMap.table, orderBooks[locate].bids, orderBooks[locate].asks, scratch
      ensures Valid() && st == Placed(old(st), locate, order)
      ensures var s := SweepFor(old(st), locate, order);
              scratch.executedOrders == s.executions && scratch.removedRefs == s.removed
      ensures |pool.nodes| == Max(old(|pool.nodes|), |st.index|)
    {
      ghost var b := Now();
      MapRoom(b);
      assert Entries() == Some(b.contents);
      var restingIdx := PlaceExactly(locate, order, scratch, b);
      FollowPlaced(scratch, order.ref, locate, restingIdx, b.contents,
                   PlacedAt(b, locate, order, restingIdx, pool.nodes, pool.place));
    }

    /** The order map follows what a book did. */
    method FollowPlaced(scratch: EngineScratch, ref: uint64, locate: uint16, restingIdx: uint32,
                        ghost contents: map<uint64, OrderLocation>, ghost next: Moment)
      requires Entries() == Some(contents) && |contents| < orderMap.capacity
      requires next.contents == Updated(contents, scratch.removedRefs, ref, locate, restingIdx)
      requires next.nodes == pool.nodes && next.place == pool.place
      requires ExactMoment(next) && Showing(next.st.sides) == Some(BooksOf(next))
      requires restingIdx != INVALID ==> ref != EMPTY
      modifies this, orderMap, orderMap.table
      ensures Valid() && st == next.st && |pool.nodes| == old(|pool.nodes|) && unchanged(scratch)
    {
      Reindex(scratch.removedRefs, ref, locate, restingIdx, next.st.sides);
      Advance(next);
    }

    /** The book's part, leading to a moment that is exact once the order map follows. */
    method PlaceExactly(locate: uint16, order: Order, scratch: EngineScratch, ghost b: Moment)
      returns (restingIdx: uint32)
      requires Shows(b) && ValidSide(order.side) && CanPlace(b.st, locate, order)
      requires scratch.executedOrders == [] && scratch.removedRefs == []
      modifies pool, orderBooks[locate].bids, orderBooks[locate].asks, scratch
      ensures var next := PlacedAt(b, locate, order, restingIdx, pool.nodes, pool.place);
              && ExactMoment(next) && Showing(next.st.sides) == Some(BooksOf(next))
              && |pool.nodes| == Max(|b.nodes|, |next.st.index|)
      ensures var s := SweepFor(b.st, locate, order);
              scratch.executedOrders == s.executions && scratch.removedRefs == s.removed
      ensures restingIdx != INVALID ==> order.ref != EMPTY
      ensures Entries() == old(Entries())
    {
      ghost var gone;
      restingIdx, gone := PlaceInBook(locate, order, scratch, b);
      PlacedMoment(b, locate, order, gone, restingIdx, pool.nodes, pool.place, pool.freeHead, pool.freeList);
    }

    /** The book's part of placing an order, against the specification. */
    method PlaceInBook(locate: uint16, order: Order, scratch: EngineScratch, ghost b: Moment)
      returns (restingIdx: uint32, ghost gone: seq<uint32>)
      requires Shows(b) && ValidSide(order.side)
      requires scratch.executedOrders == [] && scratch.removedRefs == []
      modifies pool, orderBooks[locate].bids, orderBooks[locate].asks, scratch
      ensures var next := Placed(b.st, locate, order).sides; Showing(next) == Some(Books(next, pool.nodes, pool.place))
      ensures pool.Valid()
      ensures var s := SweepFor(b.st, locate, order);
              && scratch.executedOrders == s.executions && scratch.removedRefs == s.removed
              && (restingIdx != INVALID <==> s.left > 0)
              && RefsOfGone(s.removed, gone, b.nodes, b.place)
      ensures Relocated(SideNo(locate, order.side == BUY), order.ref, gone, restingIdx, b.nodes, b.place,
                        pool.nodes, pool.place)
      ensures |b.nodes| == |pool.nodes| || pool.freeList == []
    {
      ghost var own, opp := SideNo(locate, order.side == BUY), SideNo(locate, order.side != BUY);
      ghost var ranked := sides[opp].ranked;
      assert SideFine(opp) && SideWired(opp) && SideSound(b.st, opp);
      assert ListAt(opp) == b.st.sides[opp] && ListAt(own) == b.st.sides[own];
      restingIdx, gone := MatchAndRest(locate, order, scratch, own, opp);
      GoneRefs(opp, order.side != BUY, ranked, b.nodes, b.place, gone, order.price, order.shares);
      HandledLists(b.st, locate, order, scratch.executedOrders, scratch.removedRefs, restingIdx != INVALID);
    }

    /** A mapped reference names a live slot: its side, its place in the list, and its order. */
    lemma Resolve(b: Moment, ref: uint64) returns (k: nat, i: nat)
      requires Shows(b) && ref in b.contents
      ensures Knows(b.st, ref) && k == b.st.index[ref] < SIDES && i == Position(b.st.sides[k], ref)
      ensures var loc := b.contents[ref];
              && i < |sides[k].ranked| && sides[k].ranked[i] == loc.poolIdx < |b.nodes|
              && b.nodes[loc.poolIdx].order == Lookup(b.st, ref)
              && k == SideNo(loc.stockLocate, Lookup(b.st, ref).side == BUY)
              && Lookup(b.st, ref).side == SideChar(IsBid(k))
    {
      var loc := b.contents[ref];
      assert Located(b.contents, b.nodes, b.place, ref) && KnownRef(b.st, ref);
      k := b.st.index[ref];
      SideNumber(k);
      assert SideFine(k) && SideWired(k) && SideSound(b.st, k) && b.st.sides[k] == ListAt(k);
      i := FoundAt(k, sides[k].ranked, b.nodes, b.place, loc.poolIdx);
    }

    /** Takes a mapped order out of its book and out of the map. */
    method RemoveOrder(ref: uint64, loc: OrderLocation)
      requires Valid() && ref in orderMap.Contents() && loc == orderMap.Contents()[ref]
      modifies this, pool, orderMap, orderMap.table, orderBooks[loc.stockLocate].bids, orderBooks[loc.stockLocate].asks
      ensures Valid() && Knows(old(st), ref) && st == Withdraw(old(st), ref)
      ensures |pool.nodes| == old(|pool.nodes|)
    {
      ghost var b := Now();
      MapRoom(b);
      assert Entries() == Some(b.contents);
      RemoveExactly(ref, loc, b);
      FollowRemoved(ref, b);
    }

    method FollowRemoved(ref: uint64, ghost b: Moment)
      requires |b.st.sides| == SIDES && Knows(b.st, ref)
      requires var next := WithdrawnAt(b, ref, pool.nodes, pool.place);
               ExactMoment(next) && Showing(next.st.sides) == Some(BooksOf(next))
      requires Entries() == Some(b.contents) && |b.contents| < orderMap.capacity
      modifies this, orderMap, orderMap.table
      ensures Valid() && st == Withdraw(b.st, ref) && |pool.nodes| == old(|pool.nodes|)
    {
      ghost var next := WithdrawnAt(b, ref, pool.nodes, pool.place);
      EraseRef(ref, next.st.sides);
      Advance(next);
    }

    /** The book's part, leading to a moment that is exact once the order map follows. */
    method RemoveExactly(ref: uint64, loc: OrderLocation, ghost b: Moment)
      requires Shows(b) && ref in b.contents && loc == b.contents[ref]
      modifies pool, orderBooks[loc.stockLocate].bids, orderBooks[loc.stockLocate].asks
      ensures Knows(b.st, ref) && |pool.nodes| == |b.nodes|
      ensures var next := WithdrawnAt(b, ref, pool.nodes, pool.place);
              ExactMoment(next) && Showing(next.st.sides) == Some(BooksOf(next))
      ensures Entries() == old(Entries())
    {
      RemoveInBook(ref, loc, b);
      WithdrawnMoment(b, ref, pool.nodes, pool.place);
    }

    /** The book's part of withdrawing an order, against the specification. */
    method RemoveInBook(ref: uint64, loc: OrderLocation, ghost b: Moment)
      requires Shows(b) && ref in b.contents && loc == b.contents[ref]
      modifies pool, orderBooks[loc.stockLocate].bids, orderBooks[loc.stockLocate].asks
      ensures Knows(b.st, ref)
      ensures var next := Withdraw(b.st, ref).sides; Showing(next) == Some(Books(next, pool.nodes, pool.place))
      ensures Entries() == old(Entries())
      ensures Relocated(0, 0, [loc.poolIdx], INVALID, b.nodes, b.place, pool.nodes, pool.place)
      ensures |pool.nodes| == |b.nodes|
    {
      ghost var k, i := Resolve(b, ref);
      BookSides(loc.stockLocate, Lookup(b.st, ref).side);
      RemoveLive(loc.stockLocate, loc.poolIdx, k, i);
    }

    /** Removing a live slot changes one list. */
    method RemoveLive(locate: uint16, idx: uint32, ghost k: nat, ghost i: nat)
      requires Wired() && pool.Valid() && AllFine() && idx < |pool.nodes|
      requires k == SideNo(locate, pool.nodes[idx].order.side == BUY)
      requires i < |sides[k].ranked| && sides[k].ranked[i] == idx
      modifies pool, sides[k]
      ensures pool.Valid() && AllFine()
      ensures i < |old(ListAt(k))| && ListAt(k) == RemoveAt(old(ListAt(k)), i)
      ensures forall j: nat {:trigger ListAt(j)} | j < SIDES && j != k :: ListAt(j) == old(ListAt(j))
      ensures Relocated(0, 0, [idx], INVALID, old(pool.nodes), old(pool.place), pool.nodes, pool.place)
      ensures |pool.nodes| == old(|pool.nodes|)
    {
      ghost var nodes, place := pool.nodes, pool.place;
      CallRemove(locate, idx, k, i);
      forall j: nat | j < SIDES && j != k ensures FineOver(j, nodes, place) && sides[j].ranked == old(sides[j].ranked) {
        assert SideWired(j) && SideWired(k) && old(SideFine(j));
      }
      OthersKeep(k, k, nodes, place);
      assert SideFine(k);
    }

    method CallRemove(locate: uint16, idx: uint32, ghost k: nat, ghost i: nat)
      requires Wired() && pool.Valid() && AllFine() && idx < |pool.nodes|
      requires k == SideNo(locate, pool.nodes[idx].order.side == BUY)
      requires i < |sides[k].ranked| && sides[k].ranked[i] == idx
      modifies pool, sides[k]
      ensures pool.Valid() && SideFine(k)
      ensures i < |old(ListAt(k))| && ListAt(k) == RemoveAt(old(ListAt(k)), i)
      ensures Elsewhere(k, k, old(pool.nodes), old(pool.place), pool.nodes, pool.place)
      ensures Relocated(0, 0, [idx], INVALID, old(pool.nodes), old(pool.place), pool.nodes, pool.place)
      ensures |pool.nodes| == old(|pool.nodes|)
    {
      BookSides(locate, pool.nodes[idx].order.side);
      assert SideFine(2 * locate) && SideFine(2 * locate + 1);
      orderBooks[locate].RemoveByIndex(idx, i);
    }

    /** Reduces a mapped order in place; its position in the queue does not change. */
    method ReduceOrder(ref: uint64, loc: OrderLocation, shares: uint32)
      requires Valid() && ref in orderMap.Contents() && loc == orderMap.Contents()[ref] && shares > 0
      modifies this, pool
      ensures Valid() && Knows(old(st), ref) && st == SetShares(old(st), ref, shares)
      ensures |pool.nodes| == old(|pool.nodes|)
    {
      ghost var b := Now();
      assert Entries() == Some(b.contents);
      ghost var k, i := Resolve(b, ref);
      SetSlotShares(loc.poolIdx, shares, b, k, i);
      SharesMoment(b, ref, shares);
      Advance(Moment(SetShares(b.st, ref, shares), pool.nodes, b.place, b.contents));
    }

    method SetSlotShares(idx: uint32, shares: uint32, ghost b: Moment, ghost k: nat, ghost i: nat)
      requires Shows(b) && idx < |b.nodes| && k < SIDES && i < |sides[k].ranked| && sides[k].ranked[i] == idx
      modifies pool`nodes
      ensures pool.nodes == WithShares(b.nodes, idx, shares)
      ensures i < |b.st.sides[k]|
      ensures var next := b.st.sides[k := b.st.sides[k][i := b.st.sides[k][i].(shares := shares)]];
              Showing(next) == Some(Books(next, pool.nodes, pool.place))
      ensures Entries() == old(Entries())
    {
      SharesFree(pool.nodes, pool.place, pool.freeHead, pool.freeList, idx, shares);
      assert SideFine(k) && SideWired(k) && ListAt(k) == b.st.sides[k];
      pool.nodes := WithShares(pool.nodes, idx, shares);
      ghost var next := b.st.sides[k := b.st.sides[k][i := b.st.sides[k][i].(shares := shares)]];
      forall j: nat | j < SIDES ensures SideFine(j) && ListAt(j) == next[j] {
        assert old(SideFine(j)) && old(ListAt(j)) == b.st.sides[j];
        SharesFine(j, idx, shares, b, k, i);
      }
    }

    /** One side after a share count was changed in side k. */
    lemma SharesFine(j: nat, idx: uint32, shares: uint32, b: Moment, k: nat, i: nat)
      requires Wired() && j < SIDES && k < SIDES && |b.st.sides| == SIDES && FineOver(j, b.nodes, b.place)
      requires idx < |b.nodes| == |b.place| && i < |sides[k].ranked| && sides[k].ranked[i] == idx
               && b.place[idx] == Queued(k)
      requires OrdersOf(sides[j].ranked, b.nodes) == b.st.sides[j]
      requires pool.nodes == WithShares(b.nodes, idx, shares) && pool.place == b.place
      ensures SideFine(j)
      ensures i < |b.st.sides[k]| || j != k
      ensures ListAt(j) == if j == k then b.st.sides[k][i := b.st.sides[k][i].(shares := shares)] else b.st.sides[j]
    {
      assert SideWired(j);
      SharesSide(sides[j].State(), sides[j].ranked, b.nodes, b.place, None, idx, shares);
      if j == k {
        SharesOrders(sides[k].ranked, b.nodes, i, shares);
      }
    }

    /** Looks a reference up: found exactly when the specification knows it. */
    method Locate(ref: uint64) returns (loc: Option<OrderLocation>)
      requires Valid()
      ensures loc == if ref in orderMap.Contents() then Some(orderMap.Contents()[ref]) else None
      ensures loc.Some? <==> Knows(st, ref)
      ensures loc.Some? ==> loc.value.poolIdx < |pool.nodes| && pool.nodes[loc.value.poolIdx].order == Lookup(st, ref)
    {
      MapRoom(Now());
      MapKnows(Now(), ref);
      loc := orderMap.Find(ref);
      if loc.Some? {
        ghost var k, i := Resolve(Now(), ref);
      }
    }

    /** One message; `ok` is false for an add with an invalid side, which the source rejects with an exception. */
    method ProcessMessage(m: Message, scratch: EngineScratch) returns (ok: bool)
      requires Valid() && Accepts(st, m)
      modifies this, pool, sides, orderMap, orderMap.table, scratch
      ensures Valid() && st == Step(old(st), m)
      ensures ok <==> (m.Add? ==> m.order.side == 'B' || m.order.side == 'S')
      ensures |pool.nodes| == Max(old(|pool.nodes|), |st.index|)
      ensures match SweepOf(old(st), m)
              case Some(s) =>
                && scratch.executedOrders == s.executions && scratch.removedRefs == s.removed
                && ExecutesFairly(old(st), m, scratch.executedOrders)
              case None => !m.Add? ==> unchanged(scratch)
    {
      StepExecutesFairly(st, m);
      ok := true;
      match m {
        case Add(locate, order) => ok := ProcessAdd(locate, order, scratch);
        case Delete(ref) => ProcessDelete(ref);
        case Reduce(ref, shares) => ProcessReduce(ref, shares);
        case Replace(original, ref, shares, price) => ProcessReplace(m, original, ref, shares, price, scratch);
        case Other => LiveFits(Now());
      }
    }

    method ClearScratch(scratch: EngineScratch)
      requires Valid()
      modifies scratch
      ensures Valid() && scratch.executedOrders == [] && scratch.removedRefs == []
    {
      scratch.executedOrders, scratch.removedRefs := [], [];
    }

    method ProcessAdd(locate: uint16, order: Order, scratch: EngineScratch) returns (ok: bool)
      requires Valid() && Accepts(st, Add(locate, order))
      modifies this, pool, sides, orderMap, orderMap.table, scratch
      ensures Valid() && st == Step(old(st), Add(locate, order))
      ensures ok <==> ValidSide(order.side)
      ensures |pool.nodes| == Max(old(|pool.nodes|), |st.index|)
      ensures ok ==> var s := SweepFor(old(st), locate, order);
                     scratch.executedOrders == s.executions && scratch.removedRefs == s.removed
    {
      LiveFits(Now());
      ClearScratch(scratch);
      ok := ValidSide(order.side);
      if ok {
        BookSides(locate, order.side);
        PlaceOrder(locate, order, scratch);
      }
    }

    method ProcessDelete(ref: uint64)
      requires Valid()
      modifies this, pool, sides, orderMap, orderMap.table
      ensures Valid() && st == Step(old(st), Delete(ref))
      ensures |pool.nodes| == Max(old(|pool.nodes|), |st.index|)
    {
      LiveFits(Now());
      var found := Locate(ref);
      if found.Some? {
        BookSides(found.value.stockLocate, BUY);
        RemoveOrder(ref, found.value);
        LiveFits(Now());
      }
    }

    /** What a reduction does to an order with this many shares. */
    static ghost predicate Reduces(st: EngineState, ref: uint64, resting: uint32, shares: uint32, st': EngineState) {
      match shares >= resting
      case true => Knows(st, ref) && st' == Withdraw(st, ref)
      case false => Knows(st, ref) && st' == SetShares(st, ref, resting - shares)
    }

    static lemma ReduceParts(st: EngineState, ref: uint64, resting: uint32, shares: uint32)
      requires |st.sides| == SIDES && Knows(st, ref) && resting == Lookup(st, ref).shares
      ensures Reduces(st, ref, resting, shares, Step(st, Reduce(ref, shares)))
    {
    }

    /** Execute or cancel some or all shares of an order that was found. */
    method ReduceFound(ref: uint64, loc: OrderLocation, shares: uint32, ghost target: EngineState)
      requires Valid() && ref in orderMap.Contents() && loc == orderMap.Contents()[ref]
      requires loc.poolIdx < |pool.nodes| && Reduces(st, ref, pool.nodes[loc.poolIdx].order.shares, shares, target)
      modifies this, pool, sides, orderMap, orderMap.table
      ensures Valid() && st == target && |st.index| <= |pool.nodes| == old(|pool.nodes|)
    {
      var resting := pool.nodes[loc.poolIdx].order.shares;
      if shares >= resting {
        BookSides(loc.stockLocate, BUY);
        RemoveOrder(ref, loc);
      } else {
        ReduceOrder(ref, loc, resting - shares);
      }
      LiveFits(Now());
    }

    method ProcessReduce(ref: uint64, shares: uint32)
      requires Valid()
      modifies this, pool, sides, orderMap, orderMap.table
      ensures Valid() && st == Step(old(st), Reduce(ref, shares))
      ensures |pool.nodes| == Max(old(|pool.nodes|), |st.index|)
    {
      LiveFits(Now());
      var found := Locate(ref);
      if found.Some? {
        ReduceParts(st, ref, pool.nodes[found.value.poolIdx].order.shares, shares);
        ReduceFound(ref, found.value, shares, Step(st, Reduce(ref, shares)));
      }
    }

    method Cancel(original: uint64, loc: OrderLocation, scratch: EngineScratch)
      requires Valid() && original in orderMap.Contents() && loc == orderMap.Contents()[original]
      modifies this, pool, sides, orderMap, orderMap.table, scratch
      ensures Valid() && Knows(old(st), original) && st == Withdraw(old(st), original)
      ensures |pool.nodes| == old(|pool.nodes|)
      ensures scratch.executedOrders == [] && scratch.removedRefs == []
    {
      BookSides(loc.stockLocate, BUY);
      RemoveOrder(original, loc);
      ClearScratch(scratch);
    }

    /** The original leaves its list, and then this order is placed. */
    static ghost predicate Replaces(st: EngineState, original: uint64, locate: uint16, order: Order,
                                    st': EngineState, s: Sweep) {
      && |st.sides| == SIDES && Knows(st, original) && ValidSide(order.side)
      && var st1 := Withdraw(st, original);
         && CanPlace(st1, locate, order) && st' == Placed(st1, locate, order) && s == SweepFor(st1, locate, order)
    }

    /** What a replace does once its original has been found. */
    lemma ReplaceParts(m: Message, locate: uint16, order: Order)
      requires Valid() && m.Replace? && m.original in orderMap.Contents() && Accepts(st, m)
      requires locate == orderMap.Contents()[m.original].stockLocate
      requires Knows(st, m.original) && order == Replacement(st, m)
      ensures SweepOf(st, m).Some? && Replaces(st, m.original, locate, order, Step(st, m), SweepOf(st, m).value)
    {
      var k, i := Resolve(Now(), m.original);
    }

    method CancelAndAdd(original: uint64, loc: OrderLocation, order: Order, scratch: EngineScratch,
                        ghost target: EngineState, ghost s: Sweep)
      requires Valid() && original in orderMap.Contents() && loc == orderMap.Contents()[original]
      requires Replaces(st, original, loc.stockLocate, order, target, s)
      modifies this, pool, sides, orderMap, orderMap.table, scratch
      ensures Valid() && st == target && |pool.nodes| == Max(old(|pool.nodes|), |st.index|)
      ensures scratch.executedOrders == s.executions && scratch.removedRefs == s.removed
    {
      Cancel(original, loc, scratch);
      BookSides(loc.stockLocate, BUY);
      PlaceOrder(loc.stockLocate, order, scratch);
    }

    method ProcessReplace(ghost m: Message, original: uint64, ref: uint64, shares: uint32, price: uint32,
                          scratch: EngineScratch)
      requires Valid() && m == Replace(original, ref, shares, price) && Accepts(st, m)
      modifies this, pool, sides, orderMap, orderMap.table, scratch
      ensures Valid() && st == Step(old(st), m)
      ensures |pool.nodes| == Max(old(|pool.nodes|), |st.index|)
      ensures match SweepOf(old(st), m)
              case Some(s) => scratch.executedOrders == s.executions && scratch.removedRefs == s.removed
              case None => unchanged(scratch)
    {
      LiveFits(Now());
      var loc := Locate(original);
      if loc.Some? {
        // The replacement inherits the side of the original.
        var order := Order(ref, shares, price, pool.nodes[loc.value.poolIdx].order.side);
        ReplaceParts(m, loc.value.stockLocate, order);
        CancelAndAdd(original, loc.value, order, scratch, Step(st, m), SweepOf(st, m).value);
      }
    }

    lemma FreshValid()
      requires |orderBooks| == BOOKS && |sides| == SIDES && orderMap.capacity == MAP_SLOTS
      requires forall k | 0 <= k < |sides| :: NewSide(sides[k], k)
      requires forall b: nat {:trigger orderBooks[b]} | b < BOOKS ::
                 && orderBooks[b].pool == pool
                 && orderBooks[b].bids == sides[2 * b] && orderBooks[b].asks == sides[2 * b + 1]
      requires pool.Valid() && pool.nodes == [] && orderMap.Valid() && orderMap.Contents() == map[] && st == Initial()
      ensures Valid()
    {
      forall k: nat | k < SIDES ensures SideFine(k) && SideWired(k) { assert NewSide(sides[k], k); }
      InitialSound();
    }
  }
}
