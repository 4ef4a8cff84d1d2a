/**
  One side of a book: a window of price slots with a cached best slot, and a sorted overflow
  list for prices off the tick grid or outside the window. The queues themselves live in the
  shared arena; the invariants below are on values so that they can be framed.
 */
module Ladders {
  import opened Words
  import opened BookSpec
  import opened OrderPools
  import opened Queues

  const TICK: nat := 100
  const WINDOW: nat := 2048

  datatype PriceLevel = PriceLevel(price: uint32, level: Level)

  /** What `Level*` points at. */
  datatype LevelRef = InLadder(slot: nat) | InOverflow(i: nat)

  /** The fields of a side, as a value. */
  datatype Side = Side(id: nat, bid: bool, ladder: seq<Level>, overflow: seq<PriceLevel>,
                       base: uint32, anchored: bool, bestSlot: uint32)

  /** Slot of a price, or INVALID when it is off the grid or outside the window. */
  function SlotOf(base: uint32, anchored: bool, price: uint32): (slot: uint32)
    ensures slot != INVALID ==> anchored && slot < WINDOW && base + slot * TICK == price
    ensures slot == INVALID && anchored ==> forall i: int | 0 <= i < WINDOW :: base + i * TICK != price
  {
    if !anchored || price < base then INVALID
    else
      var offset := price - base;
      if offset % TICK != 0 then INVALID
      else if offset / TICK >= WINDOW then INVALID
      else offset / TICK
  }

  /** Price of a slot, in wrapping 32-bit arithmetic. */
  function SlotPrice(base: uint32, slot: uint32): (price: uint32) {
    (base + slot * TICK) % TWO_32
  }

  /** No wrap-around for any slot that holds an order: the two maps are inverse. */
  lemma SlotPriceInverse(base: uint32, anchored: bool, price: uint32, slot: uint32)
    ensures SlotOf(base, anchored, price) != INVALID ==> SlotPrice(base, SlotOf(base, anchored, price)) == price
    ensures anchored && slot < WINDOW && base + slot * TICK < TWO_32 ==>
              SlotOf(base, anchored, SlotPrice(base, slot)) == slot
  {
    if anchored && slot < WINDOW && base + slot * TICK < TWO_32 {
      assert slot * TICK % TICK == 0 && slot * TICK / TICK == slot;
    }
  }

  predicate HasRef(s: Side, ref: LevelRef) {
    match ref
    case InLadder(slot) => s.anchored && slot < WINDOW
    case InOverflow(i) => i < |s.overflow|
  }

  function RefPrice(s: Side, ref: LevelRef): (p: int)
    requires HasRef(s, ref)
  {
    match ref
    case InLadder(slot) => s.base + slot * TICK
    case InOverflow(i) => s.overflow[i].price
  }

  function GetLevel(s: Side, ref: LevelRef): (lvl: Level)
    requires HasRef(s, ref) && (s.anchored ==> |s.ladder| == WINDOW)
  {
    match ref
    case InLadder(slot) => s.ladder[slot]
    case InOverflow(i) => s.overflow[i].level
  }

  function SetLevel(s: Side, ref: LevelRef, lvl: Level): (s': Side)
    requires HasRef(s, ref) && (s.anchored ==> |s.ladder| == WINDOW)
  {
    match ref
    case InLadder(slot) => s.(ladder := s.ladder[slot := lvl])
    case InOverflow(i) => s.(overflow := s.overflow[i := s.overflow[i].(level := lvl)])
  }

  ghost predicate Ascending(overflow: seq<PriceLevel>) {
    forall i, j | 0 <= i < j < |overflow| :: overflow[i].price < overflow[j].price
  }

  ghost predicate Listed(overflow: seq<PriceLevel>, p: int) {
    exists i :: 0 <= i < |overflow| && overflow[i].price == p
  }

  /** Every level, in the window or in overflow, names its own queue; every queued price has a level. */
  ghost predicate LevelsOK(s: Side, nodes: seq<Node>, place: seq<Place>)
    requires |place| == |nodes|
  {
    && (s.anchored ==> |s.ladder| == WINDOW)
    && (!s.anchored ==> s.overflow == [] && forall n | 0 <= n < |nodes| :: place[n] != Queued(s.id))
    && (s.anchored ==> forall slot | 0 <= slot < WINDOW ::
          LevelIs(s.id, s.ladder[slot], s.base + slot * TICK, nodes, place))
    && Ascending(s.overflow)
    && (forall i | 0 <= i < |s.overflow| ::
          && SlotOf(s.base, s.anchored, s.overflow[i].price) == INVALID
          && LevelIs(s.id, s.overflow[i].level, s.overflow[i].price, nodes, place))
    && (forall n | 0 <= n < |nodes| && place[n] == Queued(s.id) ::
          SlotOf(s.base, s.anchored, Price(nodes, n)) != INVALID || Listed(s.overflow, Price(nodes, n)))
  }

  /** A slot strictly better than another. */
  predicate BetterSlot(bid: bool, a: int, b: int) {
    if bid then a > b else a < b
  }

  /** No populated slot is better than the cached one. */
  ghost predicate BestBound(s: Side)
    requires s.anchored ==> |s.ladder| == WINDOW
  {
    && (s.bestSlot != INVALID ==> s.anchored && s.bestSlot < WINDOW)
    && (s.anchored ==>
          forall slot | 0 <= slot < WINDOW && (s.bestSlot == INVALID || BetterSlot(s.bid, slot, s.bestSlot)) ::
          s.ladder[slot].head == INVALID)
  }

  /** The cached slot is populated and overflow holds no empty level, except possibly at `ref`. */
  ghost predicate BestExact(s: Side, ref: Option<LevelRef>)
    requires s.anchored ==> |s.ladder| == WINDOW
  {
    && (s.bestSlot != INVALID && ref != Some(InLadder(s.bestSlot)) ==>
          s.anchored && s.bestSlot < WINDOW && s.ladder[s.bestSlot].head != INVALID)
    && (forall i | 0 <= i < |s.overflow| && ref != Some(InOverflow(i)) :: s.overflow[i].level.head != INVALID)
  }

  /** All that holds of one side between operations; `dirty` is a level being drained. */
  ghost predicate SideOK(s: Side, ranked: seq<uint32>, nodes: seq<Node>, place: seq<Place>, dirty: Option<LevelRef>) {
    && Chain(s.id, s.bid, ranked, nodes, place)
    && LevelsOK(s, nodes, place)
    && BestBound(s)
    && BestExact(s, dirty)
  }

  // ---- Changing one level ----

  /** Levels of other prices survive a change of one price's queue. */
  lemma OtherLevels(s: Side, p: int, nodes: seq<Node>, place: seq<Place>, nodes': seq<Node>, place': seq<Place>)
    requires |place| == |nodes| && LevelsOK(s, nodes, place) && s.anchored
    requires OnlyPrice(s.id, p, nodes, place, nodes', place')
    ensures forall slot | 0 <= slot < WINDOW && s.base + slot * TICK != p ::
              LevelIs(s.id, s.ladder[slot], s.base + slot * TICK, nodes', place')
    ensures forall i | 0 <= i < |s.overflow| && s.overflow[i].price != p ::
              LevelIs(s.id, s.overflow[i].level, s.overflow[i].price, nodes', place')
  {
    forall slot | 0 <= slot < WINDOW && s.base + slot * TICK != p
      ensures LevelIs(s.id, s.ladder[slot], s.base + slot * TICK, nodes', place')
    {
      OtherLevel(s.id, p, nodes, place, nodes', place', s.ladder[slot], s.base + slot * TICK);
    }
    forall i | 0 <= i < |s.overflow| && s.overflow[i].price != p
      ensures LevelIs(s.id, s.overflow[i].level, s.overflow[i].price, nodes', place')
    {
      OtherLevel(s.id, p, nodes, place, nodes', place', s.overflow[i].level, s.overflow[i].price);
    }
  }

  /** Replacing the level of price p after a change of that price's queue only. */
  lemma ReplaceLevel(s: Side, ref: LevelRef, lvl: Level, nodes: seq<Node>, place: seq<Place>,
                     nodes': seq<Node>, place': seq<Place>)
    requires |place| == |nodes| && LevelsOK(s, nodes, place) && HasRef(s, ref) && s.anchored
    requires OnlyPrice(s.id, RefPrice(s, ref), nodes, place, nodes', place')
    requires LevelIs(s.id, lvl, RefPrice(s, ref), nodes', place')
    ensures LevelsOK(SetLevel(s, ref, lvl), nodes', place')
  {
    var s', p := SetLevel(s, ref, lvl), RefPrice(s, ref);
    OtherLevels(s, p, nodes, place, nodes', place');
    RefCovers(s, ref);
    forall n | 0 <= n < |nodes'| && place'[n] == Queued(s.id)
      ensures SlotOf(s'.base, s'.anchored, Price(nodes', n)) != INVALID || Listed(s'.overflow, Price(nodes', n))
    {
      SameListed(s, ref, lvl, Price(nodes', n));
    }
  }

  /** A level's price is a slot price or a listed overflow price. */
  lemma RefCovers(s: Side, ref: LevelRef)
    requires HasRef(s, ref) && s.anchored
    ensures 0 <= RefPrice(s, ref) < TWO_32 ==>
              SlotOf(s.base, s.anchored, RefPrice(s, ref)) != INVALID || Listed(s.overflow, RefPrice(s, ref))
  {
  }

  lemma SameListed(s: Side, ref: LevelRef, lvl: Level, q: int)
    requires HasRef(s, ref) && (s.anchored ==> |s.ladder| == WINDOW)
    ensures Listed(SetLevel(s, ref, lvl).overflow, q) <==> Listed(s.overflow, q)
  {
    var s' := SetLevel(s, ref, lvl);
    if Listed(s.overflow, q) {
      var i :| 0 <= i < |s.overflow| && s.overflow[i].price == q;
      assert s'.overflow[i].price == q;
    }
    if Listed(s'.overflow, q) {
      var i :| 0 <= i < |s'.overflow| && s'.overflow[i].price == q;
      assert s.overflow[i].price == q;
    }
  }

  /** First use: an empty window. */
  lemma AnchorSide(s: Side, base: uint32, ranked: seq<uint32>, nodes: seq<Node>, place: seq<Place>)
    requires SideOK(s, ranked, nodes, place, None) && !s.anchored
    ensures SideOK(s.(base := base, anchored := true, ladder := seq(WINDOW, _ => EMPTY_LEVEL)),
                   ranked, nodes, place, None)
  {
  }

  /** `k` is where `price` belongs in the sorted overflow. */
  ghost predicate LowerBound(overflow: seq<PriceLevel>, price: int, k: nat) {
    && k <= |overflow|
    && (forall i | 0 <= i < k :: overflow[i].price < price)
    && (forall i | k <= i < |overflow| :: overflow[i].price >= price)
  }

  lemma NotListed(overflow: seq<PriceLevel>, price: uint32, k: nat)
    requires Ascending(overflow) && LowerBound(overflow, price, k)
    requires k == |overflow| || overflow[k].price != price
    ensures forall i | 0 <= i < |overflow| :: overflow[i].price != price
    ensures Ascending(InsertAt(overflow, k, PriceLevel(price, EMPTY_LEVEL)))
  {
  }

  /** A fresh empty overflow level for a price nobody has. */
  lemma InsertOverflow(s: Side, k: nat, price: uint32, nodes: seq<Node>, place: seq<Place>)
    requires |place| == |nodes| && LevelsOK(s, nodes, place) && s.anchored
    requires LowerBound(s.overflow, price, k) && (k == |s.overflow| || s.overflow[k].price != price)
    requires SlotOf(s.base, s.anchored, price) == INVALID
    ensures LevelsOK(s.(overflow := InsertAt(s.overflow, k, PriceLevel(price, EMPTY_LEVEL))), nodes, place)
  {
    NotListed(s.overflow, price, k);
    var o := InsertAt(s.overflow, k, PriceLevel(price, EMPTY_LEVEL));
    assert LevelIs(s.id, EMPTY_LEVEL, price, nodes, place) by {
      assert !Listed(s.overflow, price);
    }
    forall i | 0 <= i < |o|
      ensures SlotOf(s.base, s.anchored, o[i].price) == INVALID && LevelIs(s.id, o[i].level, o[i].price, nodes, place)
    {
      assert o[i] == if i < k then s.overflow[i]
                     else if i == k then PriceLevel(price, EMPTY_LEVEL)
                     else s.overflow[i - 1];
    }
    forall n | 0 <= n < |nodes| && place[n] == Queued(s.id) && Listed(s.overflow, Price(nodes, n))
      ensures Listed(o, Price(nodes, n))
    {
      StillListed(s.overflow, k, PriceLevel(price, EMPTY_LEVEL), Price(nodes, n));
    }
  }

  lemma StillListed(overflow: seq<PriceLevel>, k: nat, level: PriceLevel, p: int)
    requires k <= |overflow| && Listed(overflow, p)
    ensures Listed(InsertAt(overflow, k, level), p)
  {
    var i :| 0 <= i < |overflow| && overflow[i].price == p;
    assert InsertAt(overflow, k, level)[if i < k then i else i + 1] == overflow[i];
  }

  /** Dropping an overflow level whose queue is empty. */
  lemma EraseOverflow(s: Side, k: nat, nodes: seq<Node>, place: seq<Place>)
    requires |place| == |nodes| && LevelsOK(s, nodes, place)
    requires k < |s.overflow| && s.overflow[k].level.head == INVALID
    ensures LevelsOK(s.(overflow := RemoveAt(s.overflow, k)), nodes, place)
  {
    var o := RemoveAt(s.overflow, k);
    forall n | 0 <= n < |nodes| && place[n] == Queued(s.id) && Listed(s.overflow, Price(nodes, n))
      ensures Listed(o, Price(nodes, n))
    {
      assert s.overflow[k].price != Price(nodes, n);
      KeptListed(s.overflow, k, Price(nodes, n));
    }
  }

  lemma KeptListed(overflow: seq<PriceLevel>, k: nat, p: int)
    requires k < |overflow| && Listed(overflow, p) && overflow[k].price != p
    ensures Listed(RemoveAt(overflow, k), p)
  {
    var i :| 0 <= i < |overflow| && overflow[i].price == p;
    assert RemoveAt(overflow, k)[if i < k then i else i - 1] == overflow[i];
  }

  // ---- A whole side ----

  /** Linking or unlinking on side `id` leaves all order data and all other slots alone. */
  ghost predicate Relinked(id: nat, idx: uint32, place: seq<Place>, nodes: seq<Node>, nodes': seq<Node>) {
    && |place| == |nodes| == |nodes'|
    && (forall n | 0 <= n < |nodes| :: nodes'[n].order == nodes[n].order)
    && (forall n | 0 <= n < |nodes| && place[n] != Queued(id) && n != idx :: nodes'[n] == nodes[n])
  }

  /** Neither does it disturb the free list. */
  lemma RelinkedFree(id: nat, idx: uint32, nodes: seq<Node>, place: seq<Place>, nodes': seq<Node>, x: Place,
                     freeHead: uint32, freeList: seq<uint32>)
    requires FreeChain(nodes, place, freeHead, freeList)
    requires Relinked(id, idx, place, nodes, nodes')
    requires idx < |nodes| && place[idx] != Free && x != Free
    ensures FreeChain(nodes', place[idx := x], freeHead, freeList)
  {
    FreeChainFrame(nodes, place, nodes', place[idx := x], freeHead, freeList);
  }

  function LinkedLevel(lvl: Level, idx: uint32): (r: Level) {
    if lvl.tail != INVALID then lvl.(tail := idx) else Level(idx, idx)
  }

  /** Linking slot idx at the tail of the level of its price. */
  lemma LinkSide(s: Side, ref: LevelRef, ranked: seq<uint32>, nodes: seq<Node>, place: seq<Place>, idx: uint32)
    requires Chain(s.id, s.bid, ranked, nodes, place) && LevelsOK(s, nodes, place) && s.anchored
    requires idx < |nodes| && place[idx] == Detached
    requires HasRef(s, ref) && RefPrice(s, ref) == Price(nodes, idx)
    ensures var lvl := GetLevel(s, ref);
            var k := InsertPos(s.bid, OrdersOf(ranked, nodes), Price(nodes, idx));
            && (lvl.tail == INVALID || lvl.tail < |nodes|)
            && var nodes', place' := LinkNodes(nodes, lvl.tail, idx), place[idx := Queued(s.id)];
            && Relinked(s.id, idx, place, nodes, nodes')
            && Chain(s.id, s.bid, InsertAt(ranked, k, idx), nodes', place')
            && LevelsOK(SetLevel(s, ref, LinkedLevel(lvl, idx)), nodes', place')
  {
    var lvl := GetLevel(s, ref);
    assert LevelIs(s.id, lvl, Price(nodes, idx), nodes, place);
    var k := TailSplits(s.id, s.bid, ranked, nodes, place, lvl, Price(nodes, idx));
    LinkChain(s.id, s.bid, ranked, nodes, place, idx, k);
    LinkLevel(s.id, nodes, place, lvl, idx);
    ReplaceLevel(s, ref, LinkedLevel(lvl, idx), nodes, place, LinkNodes(nodes, lvl.tail, idx),
                 place[idx := Queued(s.id)]);
  }

  /** What `add` leaves of the side, the arena and the priority list. */
  ghost predicate Added(s: Side, ranked: seq<uint32>, nodes: seq<Node>, place: seq<Place>, idx: uint32,
                        s': Side, nodes': seq<Node>)
    requires Within(ranked, nodes) && idx < |nodes| == |place|
  {
    var k := InsertPos(s.bid, OrdersOf(ranked, nodes), Price(nodes, idx));
    && SideOK(s', InsertAt(ranked, k, idx), nodes', place[idx := Queued(s.id)], None)
    && Relinked(s.id, idx, place, nodes, nodes')
  }

  /** The cached best slot after slot was populated. */
  function Improved(s: Side, slot: uint32): (s': Side) {
    s.(bestSlot := if s.bestSlot == INVALID || BetterSlot(s.bid, slot, s.bestSlot) then slot else s.bestSlot)
  }

  lemma ImprovedBest(s: Side, slot: uint32, lvl: Level)
    requires s.anchored && |s.ladder| == WINDOW && slot < WINDOW
    requires BestBound(s) && BestExact(s, None) && lvl.head != INVALID
    ensures var s' := Improved(s.(ladder := s.ladder[slot := lvl]), slot); BestBound(s') && BestExact(s', None)
  {
  }

  lemma LevelsIgnoreBest(s: Side, best: uint32, nodes: seq<Node>, place: seq<Place>)
    requires |place| == |nodes| && LevelsOK(s, nodes, place)
    ensures LevelsOK(s.(bestSlot := best), nodes, place)
  {
  }

  lemma LinkSlot(s: Side, slot: uint32, ranked: seq<uint32>, nodes: seq<Node>, place: seq<Place>, idx: uint32)
    requires SideOK(s, ranked, nodes, place, None) && s.anchored && slot < WINDOW
    requires idx < |nodes| && place[idx] == Detached && Price(nodes, idx) == s.base + slot * TICK
    ensures s.ladder[slot].tail == INVALID || s.ladder[slot].tail < |nodes|
    ensures Added(s, ranked, nodes, place, idx,
                  Improved(s.(ladder := s.ladder[slot := LinkedLevel(s.ladder[slot], idx)]), slot),
                  LinkNodes(nodes, s.ladder[slot].tail, idx))
  {
    LinkSide(s, InLadder(slot), ranked, nodes, place, idx);
    assert LevelIs(s.id, s.ladder[slot], s.base + slot * TICK, nodes, place);
    var lvl := LinkedLevel(s.ladder[slot], idx);
    ImprovedBest(s, slot, lvl);
    LevelsIgnoreBest(s.(ladder := s.ladder[slot := lvl]), Improved(s.(ladder := s.ladder[slot := lvl]), slot).bestSlot,
                     LinkNodes(nodes, s.ladder[slot].tail, idx), place[idx := Queued(s.id)]);
  }

  lemma LinkOverflow(s: Side, i: nat, ranked: seq<uint32>, nodes: seq<Node>, place: seq<Place>, idx: uint32)
    requires SideOK(s, ranked, nodes, place, Some(InOverflow(i))) && s.anchored && i < |s.overflow|
    requires idx < |nodes| && place[idx] == Detached && Price(nodes, idx) == s.overflow[i].price
    ensures var lvl := s.overflow[i].level;
            && (lvl.tail == INVALID || lvl.tail < |nodes|)
            && Added(s, ranked, nodes, place, idx,
                     s.(overflow := s.overflow[i := s.overflow[i].(level := LinkedLevel(lvl, idx))]),
                     LinkNodes(nodes, lvl.tail, idx))
  {
    LinkSide(s, InOverflow(i), ranked, nodes, place, idx);
    assert LevelIs(s.id, s.overflow[i].level, s.overflow[i].price, nodes, place);
  }

  lemma UnlinkRelinked(id: nat, bid: bool, ranked: seq<uint32>, nodes: seq<Node>, place: seq<Place>, k: nat)
    requires Chain(id, bid, ranked, nodes, place) && k < |ranked|
    ensures var node := nodes[ranked[k]];
            (node.prev == INVALID || node.prev < |nodes|) && (node.next == INVALID || node.next < |nodes|)
    ensures Relinked(id, ranked[k], place, nodes, UnlinkNodes(nodes, ranked[k]))
  {
    Neighbours(id, bid, ranked, nodes, place, k);
  }

  /** Unlinking the slot at position k from the level of its price. */
  lemma UnlinkSide(s: Side, ref: LevelRef, ranked: seq<uint32>, nodes: seq<Node>, place: seq<Place>, k: nat)
    requires Chain(s.id, s.bid, ranked, nodes, place) && LevelsOK(s, nodes, place) && s.anchored
    requires k < |ranked|
    requires HasRef(s, ref) && RefPrice(s, ref) == Price(nodes, ranked[k])
    ensures var idx := ranked[k];
            && (nodes[idx].prev == INVALID || nodes[idx].prev < |nodes|)
            && (nodes[idx].next == INVALID || nodes[idx].next < |nodes|)
            && var nodes', place' := UnlinkNodes(nodes, idx), place[idx := Detached];
            && Relinked(s.id, idx, place, nodes, nodes')
            && Chain(s.id, s.bid, RemoveAt(ranked, k), nodes', place')
            && LevelsOK(SetLevel(s, ref, UnlinkedLevel(GetLevel(s, ref), nodes[idx])), nodes', place')
  {
    var lvl, idx := GetLevel(s, ref), ranked[k];
    assert LevelIs(s.id, lvl, Price(nodes, idx), nodes, place);
    UnlinkChain(s.id, s.bid, ranked, nodes, place, k);
    UnlinkLevel(s.id, s.bid, ranked, nodes, place, lvl, k);
    UnlinkRelinked(s.id, s.bid, ranked, nodes, place, k);
    ReplaceLevel(s, ref, UnlinkedLevel(lvl, nodes[idx]), nodes, place, UnlinkNodes(nodes, idx), place[idx := Detached]);
  }

  /** What unlinking position k leaves of the side, the arena and the priority list. */
  ghost predicate Removed(s: Side, ranked: seq<uint32>, nodes: seq<Node>, place: seq<Place>, k: nat,
                          s': Side, nodes': seq<Node>, dirty: Option<LevelRef>)
    requires k < |ranked| && Within(ranked, nodes) && |nodes| == |place|
  {
    && SideOK(s', RemoveAt(ranked, k), nodes', place[ranked[k] := Detached], dirty)
    && Relinked(s.id, ranked[k], place, nodes, nodes')
  }

  /** Unlinking may empty the level it works on, and no other. */
  lemma UnlinkDirty(s: Side, ref: LevelRef, ranked: seq<uint32>, nodes: seq<Node>, place: seq<Place>, k: nat,
                    dirty: Option<LevelRef>)
    requires SideOK(s, ranked, nodes, place, dirty) && (dirty == None || dirty == Some(ref)) && s.anchored
    requires k < |ranked|
    requires HasRef(s, ref) && RefPrice(s, ref) == Price(nodes, ranked[k])
    ensures var node := nodes[ranked[k]];
            && (node.prev == INVALID || node.prev < |nodes|)
            && (node.next == INVALID || node.next < |nodes|)
            && Removed(s, ranked, nodes, place, k, SetLevel(s, ref, UnlinkedLevel(GetLevel(s, ref), node)),
                       UnlinkNodes(nodes, ranked[k]), Some(ref))
  {
    UnlinkSide(s, ref, ranked, nodes, place, k);
    var lvl := GetLevel(s, ref);
    assert LevelIs(s.id, lvl, RefPrice(s, ref), nodes, place);
    SetLevelBest(s, ref, UnlinkedLevel(lvl, nodes[ranked[k]]), dirty);
  }

  lemma SetLevelBest(s: Side, ref: LevelRef, lvl: Level, dirty: Option<LevelRef>)
    requires HasRef(s, ref) && (s.anchored ==> |s.ladder| == WINDOW)
    requires BestBound(s) && BestExact(s, dirty) && (dirty == None || dirty == Some(ref))
    requires GetLevel(s, ref).head != INVALID
    ensures BestBound(SetLevel(s, ref, lvl)) && BestExact(SetLevel(s, ref, lvl), Some(ref))
  {
  }

  /** A dirty level that is not empty, or an empty slot that is not cached, needs no repair. */
  lemma CleanSide(s: Side, ref: LevelRef, ranked: seq<uint32>, nodes: seq<Node>, place: seq<Place>)
    requires SideOK(s, ranked, nodes, place, Some(ref)) && HasRef(s, ref)
    requires GetLevel(s, ref).head != INVALID || (ref.InLadder? && ref.slot != s.bestSlot)
    ensures SideOK(s, ranked, nodes, place, None)
  {
  }

  /** Recomputing the cached slot repairs a side whose cached slot is dirty. */
  lemma RecachedSide(s: Side, best: uint32, ranked: seq<uint32>, nodes: seq<Node>, place: seq<Place>)
    requires SideOK(s, ranked, nodes, place, Some(InLadder(s.bestSlot))) && s.anchored
    requires var s' := s.(bestSlot := best); BestBound(s') && (best != INVALID ==> s.ladder[best].head != INVALID)
    ensures SideOK(s.(bestSlot := best), ranked, nodes, place, None)
  {
    LevelsIgnoreBest(s, best, nodes, place);
  }

  /** Dropping a dirty overflow level that is empty repairs the side. */
  lemma ErasedSide(s: Side, i: nat, ranked: seq<uint32>, nodes: seq<Node>, place: seq<Place>)
    requires SideOK(s, ranked, nodes, place, Some(InOverflow(i)))
    requires i < |s.overflow| && s.overflow[i].level.head == INVALID
    ensures SideOK(s.(overflow := RemoveAt(s.overflow, i)), ranked, nodes, place, None)
  {
    EraseOverflow(s, i, nodes, place);
  }

  /** The level of a queued price is where the lookup finds it. */
  lemma LookupRef(s: Side, n: uint32, nodes: seq<Node>, place: seq<Place>, k: nat)
    requires |place| == |nodes| && LevelsOK(s, nodes, place)
    requires n < |nodes| && place[n] == Queued(s.id)
    requires SlotOf(s.base, s.anchored, Price(nodes, n)) == INVALID && LowerBound(s.overflow, Price(nodes, n), k)
    ensures k < |s.overflow| && s.overflow[k].price == Price(nodes, n)
  {
    var i :| 0 <= i < |s.overflow| && s.overflow[i].price == Price(nodes, n);
  }

  /** A side is unaffected by whatever happens to other sides, to free slots and to share counts. */
  lemma SideFrame(s: Side, ranked: seq<uint32>, nodes: seq<Node>, place: seq<Place>,
                  nodes': seq<Node>, place': seq<Place>, dirty: Option<LevelRef>)
    requires SideOK(s, ranked, nodes, place, dirty) && SameQueues(s.id, nodes, place, nodes', place')
    ensures SideOK(s, ranked, nodes', place', dirty)
  {
    ChainFrame(s.id, s.bid, ranked, nodes, place, nodes', place');
    if s.anchored {
      forall slot | 0 <= slot < WINDOW
        ensures LevelIs(s.id, s.ladder[slot], s.base + slot * TICK, nodes', place')
      {
        LevelFrame(s.id, s.ladder[slot], s.base + slot * TICK, nodes, place, nodes', place');
      }
    }
    forall i | 0 <= i < |s.overflow|
      ensures LevelIs(s.id, s.overflow[i].level, s.overflow[i].price, nodes', place')
    {
      LevelFrame(s.id, s.overflow[i].level, s.overflow[i].price, nodes, place, nodes', place');
    }
  }

  /** A level that no overflow price and no cached slot beats holds the best price of the side. */
  lemma NoneBetter(s: Side, ref: LevelRef, nodes: seq<Node>, place: seq<Place>)
    requires |place| == |nodes| && LevelsOK(s, nodes, place) && BestBound(s)
    requires HasRef(s, ref)
    requires s.bestSlot != INVALID ==> !Better(s.bid, s.base + s.bestSlot * TICK, RefPrice(s, ref))
    requires forall i | 0 <= i < |s.overflow| :: !Better(s.bid, s.overflow[i].price, RefPrice(s, ref))
    ensures forall n | 0 <= n < |nodes| && place[n] == Queued(s.id) :: !Better(s.bid, Price(nodes, n), RefPrice(s, ref))
  {
    forall n | 0 <= n < |nodes| && place[n] == Queued(s.id)
      ensures !Better(s.bid, Price(nodes, n), RefPrice(s, ref))
    {
      var slot := SlotOf(s.base, s.anchored, Price(nodes, n));
      if slot != INVALID {
        assert LevelIs(s.id, s.ladder[slot], s.base + slot * TICK, nodes, place);
        assert s.bestSlot != INVALID && !BetterSlot(s.bid, slot, s.bestSlot);
      } else {
        var i :| 0 <= i < |s.overflow| && s.overflow[i].price == Price(nodes, n);
      }
    }
  }

  /** An empty side has neither a cached slot nor overflow; a non-empty one has a level. */
  lemma EmptySide(s: Side, ranked: seq<uint32>, nodes: seq<Node>, place: seq<Place>)
    requires SideOK(s, ranked, nodes, place, None)
    ensures ranked != [] ==> s.bestSlot != INVALID || s.overflow != []
  {
    if ranked != [] {
      var slot := SlotOf(s.base, s.anchored, Price(nodes, ranked[0]));
      if slot != INVALID {
        assert LevelIs(s.id, s.ladder[slot], s.base + slot * TICK, nodes, place);
      }
    }
  }

  class LadderSide {
    ghost const id: nat
    const bid: bool
    var ladder: seq<Level>
    var overflow: seq<PriceLevel>
    var base: uint32
    var anchored: bool
    var bestSlot: uint32
    /** The side's slots in price-time priority. */
    ghost var ranked: seq<uint32>

    ghost function State(): (s: Side)
      reads this
    {
      Side(id, bid, ladder, overflow, base, anchored, bestSlot)
    }

    ghost predicate Valid(pool: OrderPool)
      reads this, pool
    {
      SideOK(State(), ranked, pool.nodes, pool.place, None)
    }

    /** What the side means. */
    ghost function Orders(pool: OrderPool): (r: seq<Order>)
      requires Within(ranked, pool.nodes)
      reads this, pool
    {
      OrdersOf(ranked, pool.nodes)
    }

    constructor (bid: bool, ghost id: nat)
      ensures this.bid == bid && this.id == id && ranked == []
      ensures !anchored && overflow == [] && bestSlot == INVALID
    {
      this.bid, this.id := bid, id;
      ladder, overflow, base, anchored, bestSlot := [], [], 0, false, INVALID;
      ranked := [];
    }

    function LevelAt(ref: LevelRef): (lvl: Level)
      requires HasRef(State(), ref) && (anchored ==> |ladder| == WINDOW)
      reads this
      ensures lvl == GetLevel(State(), ref)
    {
      match ref
      case InLadder(slot) => ladder[slot]
      case InOverflow(i) => overflow[i].level
    }

    method PutLevel(ref: LevelRef, lvl: Level)
      requires HasRef(State(), ref) && (anchored ==> |ladder| == WINDOW)
      modifies this`ladder, this`overflow
      ensures State() == SetLevel(old(State()), ref, lvl)
    {
      match ref
      case InLadder(slot) => ladder := ladder[slot := lvl];
      case InOverflow(i) => overflow := overflow[i := overflow[i].(level := lvl)];
    }

    /** First overflow entry whose price is at least `price`, by binary search. */
    method OverflowLowerBound(price: uint32) returns (k: nat)
      requires Ascending(overflow)
      ensures LowerBound(overflow, price, k)
    {
      var lo: nat, hi: nat := 0, |overflow|;
      while lo < hi
        invariant lo <= hi <= |overflow|
        invariant forall i | 0 <= i < lo :: overflow[i].price < price
        invariant forall i | hi <= i < |overflow| :: overflow[i].price >= price
      {
        var mid := (lo + hi) / 2;
        if overflow[mid].price < price {
          lo := mid + 1;
        } else {
          hi := mid;
        }
      }
      k := lo;
    }

    /** Centres the window on the first price. */
    method Anchor(price: uint32)
      modifies this
      ensures anchored && ladder == seq(WINDOW, _ => EMPTY_LEVEL)
      ensures var half := WINDOW / 2 * TICK;
              if price > half then price - half - TICK < base <= price - half else base == 0
      ensures base % TICK == 0 && base <= price && (SlotOf(base, true, price) != INVALID <==> price % TICK == 0)
      ensures overflow == old(overflow) && bestSlot == old(bestSlot) && ranked == old(ranked)
    {
      var half := WINDOW / 2 * TICK;
      var candidate := if price > half then price - half else 0;
      candidate := candidate - candidate % TICK;
      base := candidate;
      ladder := seq(WINDOW, _ => EMPTY_LEVEL);
      anchored := true;
    }

    /** Scans from the cached slot toward the worse end for the next populated slot. */
    method AdvanceBest()
      requires anchored ==> |ladder| == WINDOW
      requires BestBound(State())
      modifies this`bestSlot
      ensures BestBound(State())
      ensures bestSlot != INVALID ==> ladder[bestSlot].head != INVALID
    {
      if bid {
        while bestSlot != INVALID && ladder[bestSlot].head == INVALID
          invariant BestBound(State())
          decreases if bestSlot == INVALID then -1 else bestSlot
        {
          if bestSlot == 0 {
            bestSlot := INVALID;
            break;
          }
          bestSlot := bestSlot - 1;
        }
      } else {
        while bestSlot != INVALID && ladder[bestSlot].head == INVALID
          invariant BestBound(State())
          decreases if bestSlot == INVALID then -1 else WINDOW - bestSlot
        {
          bestSlot := bestSlot + 1;
          if bestSlot >= WINDOW {
            bestSlot := INVALID;
            break;
          }
        }
      }
    }

    /** The level holding the front of the priority list, with its price; none iff nothing rests. */
    method BestLevel(pool: OrderPool) returns (ref: Option<LevelRef>, price: uint32)
      requires Valid(pool)
      ensures ref == None <==> ranked == []
      ensures ref.Some? ==>
                && HasRef(State(), ref.value) && RefPrice(State(), ref.value) == price
                && GetLevel(State(), ref.value).head == ranked[0]
                && price == Price(pool.nodes, ranked[0])
                && (ref.value.InLadder? ==> ref.value.slot == bestSlot)
    {
      EmptySide(State(), ranked, pool.nodes, pool.place);
      var ladderEmpty, overflowEmpty := bestSlot == INVALID, overflow == [];
      ref, price := None, 0;
      if ladderEmpty && overflowEmpty {
        return;
      }
      if overflowEmpty {
        ref, price := Some(InLadder(bestSlot)), SlotPrice(base, bestSlot);
      } else {
        var edge := if bid then |overflow| - 1 else 0;
        if ladderEmpty {
          ref, price := Some(InOverflow(edge)), overflow[edge].price;
        } else {
          var ladderPrice := SlotPrice(base, bestSlot);
          var ladderWins := if bid then ladderPrice >= overflow[edge].price else ladderPrice <= overflow[edge].price;
          ref, price := if ladderWins then Some(InLadder(bestSlot)) else Some(InOverflow(edge)),
                        if ladderWins then ladderPrice else overflow[edge].price;
        }
      }
      BestIsFront(pool, ref.value);
    }

    lemma BestIsFront(pool: OrderPool, ref: LevelRef)
      requires Valid(pool) && HasRef(State(), ref)
      requires ref.InLadder? ==> ref.slot == bestSlot
      requires bestSlot != INVALID ==> !Better(bid, base + bestSlot * TICK, RefPrice(State(), ref))
      requires forall i | 0 <= i < |overflow| :: !Better(bid, overflow[i].price, RefPrice(State(), ref))
      ensures ranked != [] && GetLevel(State(), ref).head == ranked[0]
      ensures RefPrice(State(), ref) == Price(pool.nodes, ranked[0])
    {
      NoneBetter(State(), ref, pool.nodes, pool.place);
      var lvl := GetLevel(State(), ref);
      assert LevelIs(id, lvl, RefPrice(State(), ref), pool.nodes, pool.place);
      HeadIsFront(id, bid, ranked, pool.nodes, pool.place, lvl, RefPrice(State(), ref));
    }

    method LinkAtTail(pool: OrderPool, lvl: Level, idx: uint32) returns (lvl': Level)
      requires idx < |pool.nodes| && (lvl.tail == INVALID || lvl.tail < |pool.nodes|)
      modifies pool`nodes
      ensures pool.nodes == LinkNodes(old(pool.nodes), lvl.tail, idx)
      ensures lvl' == LinkedLevel(lvl, idx)
    {
      pool.nodes := pool.nodes[idx := pool.nodes[idx].(prev := lvl.tail, next := INVALID)];
      if lvl.tail != INVALID {
        pool.nodes := pool.nodes[lvl.tail := pool.nodes[lvl.tail].(next := idx)];
        lvl' := lvl.(tail := idx);
      } else {
        lvl' := Level(idx, idx);
      }
    }

    method Unlink(pool: OrderPool, lvl: Level, idx: uint32) returns (lvl': Level)
      requires idx < |pool.nodes|
      requires pool.nodes[idx].prev == INVALID || pool.nodes[idx].prev < |pool.nodes|
      requires pool.nodes[idx].next == INVALID || pool.nodes[idx].next < |pool.nodes|
      modifies pool`nodes
      ensures pool.nodes == UnlinkNodes(old(pool.nodes), idx)
      ensures lvl' == UnlinkedLevel(lvl, old(pool.nodes[idx]))
    {
      lvl' := lvl;
      var prev, next := pool.nodes[idx].prev, pool.nodes[idx].next;
      if prev != INVALID {
        pool.nodes := pool.nodes[prev := pool.nodes[prev].(next := next)];
      } else {
        lvl' := lvl'.(head := next);
      }
      if next != INVALID {
        pool.nodes := pool.nodes[next := pool.nodes[next].(prev := prev)];
      } else {
        lvl' := lvl'.(tail := prev);
      }
    }

    /** Queues slot idx behind every order that is at least as well priced. */
    method Add(pool: OrderPool, price: uint32, idx: uint32)
      requires pool.Valid() && Valid(pool)
      requires idx < |pool.nodes| && pool.place[idx] == Detached && Price(pool.nodes, idx) == price
      modifies this, pool`nodes, pool`place
      ensures pool.Valid() && Valid(pool)
      ensures ranked == InsertAt(old(ranked), InsertPos(bid, OrdersOf(old(ranked), old(pool.nodes)), price), idx)
      ensures pool.place == old(pool.place)[idx := Queued(id)]
      ensures Relinked(id, idx, old(pool.place), old(pool.nodes), pool.nodes)
    {
      if !anchored {
        FirstAnchor(pool, price);
      }
      ghost var s, nodes, place := State(), pool.nodes, pool.place;
      var slot := SlotOf(base, anchored, price);
      if slot != INVALID {
        AddToSlot(pool, slot, idx);
      } else {
        AddToOverflow(pool, price, idx);
      }
      assert Added(s, ranked, nodes, place, idx, State(), pool.nodes);
      ranked := InsertAt(ranked, InsertPos(bid, OrdersOf(ranked, nodes), price), idx);
      pool.place := pool.place[idx := Queued(id)];
      RelinkedFree(id, idx, nodes, place, pool.nodes, Queued(id), pool.freeHead, pool.freeList);
    }

    method FirstAnchor(pool: OrderPool, price: uint32)
      requires Valid(pool) && !anchored
      modifies this
      ensures Valid(pool) && anchored && ranked == old(ranked)
    {
      ghost var s0 := State();
      Anchor(price);
      AnchorSide(s0, base, ranked, pool.nodes, pool.place);
    }

    method AddToSlot(pool: OrderPool, slot: uint32, idx: uint32)
      requires Valid(pool) && anchored && slot < WINDOW
      requires idx < |pool.nodes| && pool.place[idx] == Detached && Price(pool.nodes, idx) == base + slot * TICK
      modifies this`ladder, this`bestSlot, pool`nodes
      ensures Added(old(State()), ranked, old(pool.nodes), pool.place, idx, State(), pool.nodes)
    {
      LinkSlot(State(), slot, ranked, pool.nodes, pool.place, idx);
      ghost var s := State();
      var lvl := LinkAtTail(pool, ladder[slot], idx);
      ladder := ladder[slot := lvl];
      if bestSlot == INVALID || BetterSlot(bid, slot, bestSlot) {
        bestSlot := slot;
      }
      assert State() == Improved(s.(ladder := s.ladder[slot := lvl]), slot);
    }

    /** The overflow level of a price without a slot; a new empty one if there is none yet. */
    method FindOrInsert(pool: OrderPool, price: uint32) returns (it: nat)
      requires Valid(pool) && anchored && SlotOf(base, anchored, price) == INVALID
      modifies this`overflow
      ensures it < |overflow| && overflow[it].price == price
      ensures State() == old(State()).(overflow := overflow)
      ensures || overflow == old(overflow)
              || (it <= |old(overflow)| && overflow == InsertAt(old(overflow), it, PriceLevel(price, EMPTY_LEVEL)))
      ensures SideOK(State(), ranked, pool.nodes, pool.place, Some(InOverflow(it)))
    {
      it := OverflowLowerBound(price);
      if it == |overflow| || overflow[it].price != price {
        InsertOverflow(State(), it, price, pool.nodes, pool.place);
        overflow := InsertAt(overflow, it, PriceLevel(price, EMPTY_LEVEL));
      }
    }

    method AddToOverflow(pool: OrderPool, price: uint32, idx: uint32)
      requires Valid(pool) && anchored && SlotOf(base, anchored, price) == INVALID
      requires idx < |pool.nodes| && pool.place[idx] == Detached && Price(pool.nodes, idx) == price
      modifies this`overflow, pool`nodes
      ensures Added(old(State()), ranked, old(pool.nodes), pool.place, idx, State(), pool.nodes)
    {
      var it := FindOrInsert(pool, price);
      ghost var s := State();
      LinkOverflow(s, it, ranked, pool.nodes, pool.place, idx);
      var lvl := LinkAtTail(pool, overflow[it].level, idx);
      overflow := overflow[it := overflow[it].(level := lvl)];
      assert State() == s.(overflow := s.overflow[it := s.overflow[it].(level := lvl)]);
    }

    /** Takes the slot at position k of the priority list out of its level. */
    method Remove(pool: OrderPool, price: uint32, idx: uint32, ghost k: nat)
      requires pool.Valid() && Valid(pool)
      requires k < |ranked| && ranked[k] == idx && Price(pool.nodes, idx) == price
      modifies this, pool`nodes, pool`place
      ensures pool.Valid() && Valid(pool)
      ensures ranked == RemoveAt(old(ranked), k)
      ensures pool.place == old(pool.place)[idx := Detached]
      ensures Relinked(id, idx, old(pool.place), old(pool.nodes), pool.nodes)
    {
      ghost var nodes, place := pool.nodes, pool.place;
      var slot := SlotOf(base, anchored, price);
      if slot != INVALID {
        RemoveFromSlot(pool, slot, idx, k);
      } else {
        RemoveFromOverflow(pool, price, idx, k);
      }
      RelinkedFree(id, idx, nodes, place, pool.nodes, Detached, pool.freeHead, pool.freeList);
    }

    method RemoveFromSlot(pool: OrderPool, slot: uint32, idx: uint32, ghost k: nat)
      requires Valid(pool) && anchored && slot < WINDOW
      requires k < |ranked| && ranked[k] == idx && Price(pool.nodes, idx) == base + slot * TICK
      modifies this, pool`nodes, pool`place
      ensures Valid(pool)
      ensures ranked == RemoveAt(old(ranked), k)
      ensures pool.place == old(pool.place)[idx := Detached]
      ensures Relinked(id, idx, old(pool.place), old(pool.nodes), pool.nodes)
    {
      ghost var s, ref := State(), InLadder(slot);
      UnlinkDirty(s, ref, ranked, pool.nodes, pool.place, k, None);
      var lvl := Unlink(pool, ladder[slot], idx);
      ladder := ladder[slot := lvl];
      ranked := RemoveAt(ranked, k);
      pool.place := pool.place[idx := Detached];
      assert State() == SetLevel(s, ref, lvl);
      assert SideOK(State(), ranked, pool.nodes, pool.place, Some(ref));
      if lvl.head == INVALID && slot == bestSlot {
        s := State();
        AdvanceBest();
        RecachedSide(s, bestSlot, ranked, pool.nodes, pool.place);
      } else {
        CleanSide(State(), ref, ranked, pool.nodes, pool.place);
      }
    }

    method RemoveFromOverflow(pool: OrderPool, price: uint32, idx: uint32, ghost k: nat)
      requires Valid(pool) && SlotOf(base, anchored, price) == INVALID
      requires k < |ranked| && ranked[k] == idx && Price(pool.nodes, idx) == price
      modifies this, pool`nodes, pool`place
      ensures Valid(pool)
      ensures ranked == RemoveAt(old(ranked), k)
      ensures pool.place == old(pool.place)[idx := Detached]
      ensures Relinked(id, idx, old(pool.place), old(pool.nodes), pool.nodes)
    {
      var it := OverflowLowerBound(price);
      LookupRef(State(), idx, pool.nodes, pool.place, it);
      if it == |overflow| || overflow[it].price != price {
        assert false;
        return;
      }
      ghost var s, ref := State(), InOverflow(it);
      UnlinkDirty(s, ref, ranked, pool.nodes, pool.place, k, None);
      var lvl := Unlink(pool, overflow[it].level, idx);
      overflow := overflow[it := overflow[it].(level := lvl)];
      ranked := RemoveAt(ranked, k);
      pool.place := pool.place[idx := Detached];
      assert State() == SetLevel(s, ref, lvl);
      assert SideOK(State(), ranked, pool.nodes, pool.place, Some(ref));
      if lvl.head == INVALID {
        ErasedSide(State(), it, ranked, pool.nodes, pool.place);
        overflow := RemoveAt(overflow, it);
      } else {
        CleanSide(State(), ref, ranked, pool.nodes, pool.place);
      }
    }

    /** After the matching loop has drained the best level: repairs the cache or drops the overflow level. */
    method RemoveEmptyBest(pool: OrderPool, price: uint32, ghost ref: LevelRef)
      requires SideOK(State(), ranked, pool.nodes, pool.place, Some(ref))
      requires HasRef(State(), ref) && RefPrice(State(), ref) == price && GetLevel(State(), ref).head == INVALID
      modifies this`bestSlot, this`overflow
      ensures Valid(pool)
    {
      ghost var s := State();
      var slot := SlotOf(base, anchored, price);
      if slot != INVALID {
        assert ref == InLadder(slot);
        if slot == bestSlot {
          AdvanceBest();
          RecachedSide(s, bestSlot, ranked, pool.nodes, pool.place);
        } else {
          CleanSide(s, ref, ranked, pool.nodes, pool.place);
        }
      } else {
        var it := OverflowLowerBound(price);
        if it < |overflow| && overflow[it].price == price {
          ErasedSide(s, it, ranked, pool.nodes, pool.place);
          overflow := RemoveAt(overflow, it);
        }
      }
    }
  }
}
