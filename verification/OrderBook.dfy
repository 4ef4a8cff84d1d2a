/**
  One book: two sides over the shared arena. Matching drains the opposite side from its best
  level and then rests what is left.
 */
module OrderBooks {
  import opened Words
  import opened BookSpec
  import opened OrderPools
  import opened Queues
  import opened Ladders

  /** Output buffers, appended to by every call. */
  class EngineScratch {
    var removedRefs: seq<uint64>
    var executedOrders: seq<Execution>

    constructor ()
      ensures removedRefs == [] && executedOrders == []
    {
      removedRefs, executedOrders := [], [];
    }
  }

  function WithShares(nodes: seq<Node>, n: uint32, shares: uint32): (r: seq<Node>)
    requires n < |nodes|
  {
    nodes[n := nodes[n].(order := nodes[n].order.(shares := shares))]
  }

  /** Changing a share count moves nothing. */
  lemma SharesSide(s: Side, ranked: seq<uint32>, nodes: seq<Node>, place: seq<Place>, dirty: Option<LevelRef>,
                   n: uint32, shares: uint32)
    requires SideOK(s, ranked, nodes, place, dirty) && n < |nodes|
    ensures SideOK(s, ranked, WithShares(nodes, n, shares), place, dirty)
  {
    SideFrame(s, ranked, nodes, place, WithShares(nodes, n, shares), place, dirty);
  }

  lemma SharesOrders(ranked: seq<uint32>, nodes: seq<Node>, k: nat, shares: uint32)
    requires Within(ranked, nodes) && Distinct(ranked) && k < |ranked|
    ensures Within(ranked, WithShares(nodes, ranked[k], shares))
    ensures OrdersOf(ranked, WithShares(nodes, ranked[k], shares))
         == OrdersOf(ranked, nodes)[k := OrdersOf(ranked, nodes)[k].(shares := shares)]
  {
    var orders := OrdersOf(ranked, nodes);
    forall i | 0 <= i < |ranked|
      ensures WithShares(nodes, ranked[k], shares)[ranked[i]].order == orders[k := orders[k].(shares := shares)][i]
    {
      assert Differ(ranked, i, k);
    }
  }

  lemma SharesFree(nodes: seq<Node>, place: seq<Place>, freeHead: uint32, freeList: seq<uint32>, n: uint32,
                   shares: uint32)
    requires FreeChain(nodes, place, freeHead, freeList) && n < |nodes|
    ensures FreeChain(WithShares(nodes, n, shares), place, freeHead, freeList)
  {
    FreeChainFrame(nodes, place, WithShares(nodes, n, shares), place, freeHead, freeList);
  }

  /**
    A stretch of matching against side `id`: the first k slots of its list have been freed,
    and otherwise only share counts and links of that side differ.
   */
  ghost predicate Drained(id: nat, ranked: seq<uint32>, k: nat, nodes: seq<Node>, place: seq<Place>,
                          nodes': seq<Node>, place': seq<Place>)
  {
    && k <= |ranked|
    && |nodes'| == |nodes| == |place| == |place'|
    && (forall n | 0 <= n < |nodes| :: place'[n] == if n in ranked[..k] then Free else place[n])
    && (forall n | 0 <= n < |nodes| ::
          && nodes'[n].order.ref == nodes[n].order.ref
          && nodes'[n].order.price == nodes[n].order.price
          && nodes'[n].order.side == nodes[n].order.side)
    && (forall n | 0 <= n < |nodes| && place[n].Queued? && place[n] != Queued(id) :: nodes'[n] == nodes[n])
  }

  /** Slot `idx` of side `id` has been freed; order data and all other sides are as before. */
  ghost predicate Popped(id: nat, idx: uint32, nodes: seq<Node>, place: seq<Place>, nodes': seq<Node>,
                         place': seq<Place>) {
    && |nodes'| == |nodes| == |place| && idx < |nodes| && place' == place[idx := Free]
    && (forall n | 0 <= n < |nodes| :: nodes'[n].order == nodes[n].order)
    && (forall n | 0 <= n < |nodes| && place[n].Queued? && place[n] != Queued(id) :: nodes'[n] == nodes[n])
  }

  lemma PoppedBy(id: nat, idx: uint32, nodes: seq<Node>, place: seq<Place>, nodes1: seq<Node>, nodes2: seq<Node>)
    requires Relinked(id, idx, place, nodes, nodes1) && |nodes2| == |nodes1|
    requires idx < |nodes| && place[idx] == Queued(id)
    requires nodes2[idx].order == nodes1[idx].order
    requires forall n | 0 <= n < |nodes1| && n != idx :: nodes2[n] == nodes1[n]
    ensures Popped(id, idx, nodes, place, nodes2, place[idx := Free])
  {
  }

  lemma DrainedCompose(id: nat, ranked: seq<uint32>, k: nat, j: nat, nodes: seq<Node>, place: seq<Place>,
                       nodes1: seq<Node>, place1: seq<Place>, nodes2: seq<Node>, place2: seq<Place>)
    requires Drained(id, ranked, k, nodes, place, nodes1, place1)
    requires Drained(id, ranked[k..], j, nodes1, place1, nodes2, place2)
    requires forall i | 0 <= i < |ranked| :: ranked[i] < |nodes| && place[ranked[i]] == Queued(id)
    ensures Drained(id, ranked, k + j, nodes, place, nodes2, place2)
  {
    assert ranked[..k + j] == ranked[..k] + ranked[k..][..j];
  }

  /** One moment of a sweep: the side's list, the arena, the output buffers and the shares left. */
  datatype Snap = Snap(ranked: seq<uint32>, nodes: seq<Node>, place: seq<Place>,
                       executed: seq<Execution>, removed: seq<uint64>, left: uint32)

  /** The first k slots of the starting list have been freed. */
  ghost predicate FreedTo(id: nat, a: Snap, k: nat, b: Snap) {
    && k <= |a.ranked| && b.ranked == a.ranked[k..]
    && (forall i | 0 <= i < |a.ranked| :: a.ranked[i] < |a.nodes| == |a.place| && a.place[a.ranked[i]] == Queued(id))
    && Drained(id, a.ranked, k, a.nodes, a.place, b.nodes, b.place)
    && Within(b.ranked, b.nodes)
  }

  /** Moving one record from what is still to come to what has been recorded. */
  lemma RecordOne<T>(total: seq<T>, done: seq<T>, rest: seq<T>, first: seq<T>, rest': seq<T>)
    requires total == done + rest && rest == first + rest'
    ensures total == (done + first) + rest'
  {
    assert done + (first + rest') == (done + first) + rest';
  }

  /** What one match leaves: the front order loses shares, and leaves the list if it has none left. */
  ghost predicate Executed(id: nat, ranked: seq<uint32>, nodes: seq<Node>, place: seq<Place>, shares: uint32,
                           ranked': seq<uint32>, nodes': seq<Node>, place': seq<Place>)
    requires Within(ranked, nodes) && ranked != []
  {
    var front := nodes[ranked[0]].order;
    if shares < front.shares then
      ranked' == ranked && place' == place && nodes' == WithShares(nodes, ranked[0], front.shares - shares)
    else
      ranked' == ranked[1..] && Popped(id, ranked[0], WithShares(nodes, ranked[0], 0), place, nodes', place')
  }

  /** The same, in terms of the list of orders. */
  lemma ExecutedOrders(id: nat, ranked: seq<uint32>, nodes: seq<Node>, place: seq<Place>, shares: uint32,
                       ranked': seq<uint32>, nodes': seq<Node>, place': seq<Place>)
    requires Members(id, ranked, nodes, place) && ranked != []
    requires Executed(id, ranked, nodes, place, shares, ranked', nodes', place')
    ensures Within(ranked', nodes')
    ensures var orders := OrdersOf(ranked, nodes);
            && orders[0] == nodes[ranked[0]].order
            && OrdersOf(ranked', nodes') ==
                 if shares < orders[0].shares then [orders[0].(shares := orders[0].shares - shares)] + orders[1..]
                 else orders[1..]
  {
    var orders := OrdersOf(ranked, nodes);
    assert orders[0] == nodes[ranked[0]].order;
    if shares < nodes[ranked[0]].order.shares {
      SharesOrders(ranked, nodes, 0, nodes[ranked[0]].order.shares - shares);
    } else {
      forall i | 0 <= i < |ranked'| ensures ranked'[i] < |nodes'| && nodes'[ranked'[i]].order == orders[1..][i] {
        assert ranked'[i] == ranked[i + 1] && Differ(ranked, 0, i + 1);
      }
    }
  }

  lemma ExecutedDrained(id: nat, ranked: seq<uint32>, nodes: seq<Node>, place: seq<Place>, shares: uint32,
                        ranked': seq<uint32>, nodes': seq<Node>, place': seq<Place>)
    requires Members(id, ranked, nodes, place) && ranked != []
    requires Executed(id, ranked, nodes, place, shares, ranked', nodes', place')
    ensures var j := if shares < nodes[ranked[0]].order.shares then 0 else 1;
            ranked' == ranked[j..] && Drained(id, ranked, j, nodes, place, nodes', place')
  {
    assert ranked[..1] == [ranked[0]] && ranked[..0] == [];
  }

  lemma SweepPartial(bid: bool, rest: seq<Order>, limit: uint32, shares: uint32)
    requires rest != [] && 0 < shares < rest[0].shares && Crosses(bid, rest[0].price, limit)
    ensures SweepFrom(bid, rest, limit, shares)
         == Sweep([Execution(rest[0].ref, shares)], [], [rest[0].(shares := rest[0].shares - shares)] + rest[1..], 0)
    ensures SweepFrom(bid, [rest[0].(shares := rest[0].shares - shares)] + rest[1..], limit, 0)
         == Sweep([], [], [rest[0].(shares := rest[0].shares - shares)] + rest[1..], 0)
  {
  }

  /** What one match leaves of a sweep still to come. */
  lemma SweepUnfold(bid: bool, rest: seq<Order>, limit: uint32, shares: uint32, rest': seq<Order>)
    requires rest != [] && shares > 0 && Crosses(bid, rest[0].price, limit)
    requires rest' == if shares < rest[0].shares then [rest[0].(shares := rest[0].shares - shares)] + rest[1..]
                      else rest[1..]
    ensures var s, t := SweepFrom(bid, rest, limit, shares),
                        SweepFrom(bid, rest', limit, shares - Min(shares, rest[0].shares));
            && s.executions == [Execution(rest[0].ref, Min(shares, rest[0].shares))] + t.executions
            && s.removed == (if shares < rest[0].shares then [] else [rest[0].ref]) + t.removed
            && s.rest == t.rest && s.left == t.left
  {
    if shares < rest[0].shares { SweepPartial(bid, rest, limit, shares); }
  }

  /** One match of an incoming order with this limit against the front of the list. */
  ghost predicate Matched(id: nat, bid: bool, limit: uint32, a: Snap, b: Snap) {
    && Members(id, a.ranked, a.nodes, a.place) && a.ranked != [] && a.left > 0
    && Crosses(bid, Price(a.nodes, a.ranked[0]), limit)
    && Executed(id, a.ranked, a.nodes, a.place, a.left, b.ranked, b.nodes, b.place)
    && var front := a.nodes[a.ranked[0]].order;
    && b.left == a.left - Min(a.left, front.shares)
    && b.executed == a.executed + [Execution(front.ref, Min(a.left, front.shares))]
    && b.removed == if front.shares <= a.left then a.removed + [front.ref] else a.removed
  }

  /** A run of matches, and the moments it leads from and to. */
  datatype MatchRun = Begin(s: Snap) | Then(run: MatchRun, s: Snap)

  ghost function First(r: MatchRun): (s: Snap) {
    match r case Begin(s) => s case Then(run, _) => First(run)
  }

  ghost predicate IsRun(id: nat, bid: bool, limit: uint32, r: MatchRun) {
    match r
    case Begin(_) => true
    case Then(run, s) => IsRun(id, bid, limit, run) && Matched(id, bid, limit, run.s, s)
  }

  ghost predicate SweptTo(id: nat, bid: bool, limit: uint32, a: Snap, b: Snap) {
    exists r: MatchRun :: IsRun(id, bid, limit, r) && First(r) == a && r.s == b
  }

  lemma SweptRefl(id: nat, bid: bool, limit: uint32, a: Snap)
    ensures SweptTo(id, bid, limit, a, a)
  {
    assert IsRun(id, bid, limit, Begin(a)) && First(Begin(a)) == a;
  }

  lemma SweptMore(id: nat, bid: bool, limit: uint32, a: Snap, b: Snap, c: Snap)
    requires SweptTo(id, bid, limit, a, b) && Matched(id, bid, limit, b, c)
    ensures SweptTo(id, bid, limit, a, c)
  {
    var r: MatchRun :| IsRun(id, bid, limit, r) && First(r) == a && r.s == b;
    assert IsRun(id, bid, limit, Then(r, c)) && First(Then(r, c)) == a;
  }

  lemma FreedStep(id: nat, bid: bool, limit: uint32, a: Snap, k: nat, b: Snap, c: Snap)
    requires FreedTo(id, a, k, b) && Matched(id, bid, limit, b, c)
    ensures FreedTo(id, a, if b.left < b.nodes[b.ranked[0]].order.shares then k else k + 1, c)
  {
    var j := if b.left < b.nodes[b.ranked[0]].order.shares then 0 else 1;
    ExecutedDrained(id, b.ranked, b.nodes, b.place, b.left, c.ranked, c.nodes, c.place);
    ExecutedOrders(id, b.ranked, b.nodes, b.place, b.left, c.ranked, c.nodes, c.place);
    DrainedCompose(id, a.ranked, k, j, a.nodes, a.place, b.nodes, b.place, c.nodes, c.place);
    assert a.ranked[k..][j..] == a.ranked[k + j..];
  }

  /** A run of matches frees a front stretch of the list, one slot per removed reference. */
  lemma {:induction false} RunFrees(id: nat, bid: bool, limit: uint32, r: MatchRun) returns (k: nat)
    requires IsRun(id, bid, limit, r)
    requires Members(id, First(r).ranked, First(r).nodes, First(r).place)
    ensures FreedTo(id, First(r), k, r.s) && |r.s.removed| == |First(r).removed| + k
  {
    match r
    case Begin(a) =>
      k := 0;
      assert a.ranked[0..] == a.ranked && a.ranked[..0] == [];
    case Then(run, s) =>
      var j := RunFrees(id, bid, limit, run);
      FreedStep(id, bid, limit, First(run), j, run.s, s);
      k := if run.s.left < run.s.nodes[run.s.ranked[0]].order.shares then j else j + 1;
  }

  /** Records es and rs followed by sweep s are the same as es' and rs' followed by sweep t. */
  ghost predicate SameRecord(es: seq<Execution>, rs: seq<uint64>, s: Sweep,
                             es': seq<Execution>, rs': seq<uint64>, t: Sweep) {
    && es + s.executions == es' + t.executions && rs + s.removed == rs' + t.removed
    && s.rest == t.rest && s.left == t.left
  }

  lemma RecordMatch(es: seq<Execution>, rs: seq<uint64>, s: Sweep, es': seq<Execution>, rs': seq<uint64>, t: Sweep,
                    filled: seq<Execution>, gone: seq<uint64>, u: Sweep)
    requires SameRecord(es, rs, s, es', rs', t)
    requires t.executions == filled + u.executions && t.removed == gone + u.removed
    requires t.rest == u.rest && t.left == u.left
    ensures SameRecord(es, rs, s, es' + filled, rs' + gone, u)
  {
    RecordOne(es + s.executions, es', t.executions, filled, u.executions);
    RecordOne(rs + s.removed, rs', t.removed, gone, u.removed);
  }

  /** One match of a sweep, recorded. */
  lemma SweepRecord(bid: bool, rest: seq<Order>, limit: uint32, shares: uint32, rest': seq<Order>,
                    es: seq<Execution>, rs: seq<uint64>, s: Sweep, es': seq<Execution>, rs': seq<uint64>)
    requires rest != [] && shares > 0 && Crosses(bid, rest[0].price, limit)
    requires rest' == if shares < rest[0].shares then [rest[0].(shares := rest[0].shares - shares)] + rest[1..]
                      else rest[1..]
    requires SameRecord(es, rs, s, es', rs', SweepFrom(bid, rest, limit, shares))
    ensures SameRecord(es, rs, s, es' + [Execution(rest[0].ref, Min(shares, rest[0].shares))],
                       if rest[0].shares <= shares then rs' + [rest[0].ref] else rs',
                       SweepFrom(bid, rest', limit, shares - Min(shares, rest[0].shares)))
  {
    var t, u := SweepFrom(bid, rest, limit, shares),
                SweepFrom(bid, rest', limit, shares - Min(shares, rest[0].shares));
    var gone := if shares < rest[0].shares then [] else [rest[0].ref];
    SweepUnfold(bid, rest, limit, shares, rest');
    RecordMatch(es, rs, s, es', rs', t, [Execution(rest[0].ref, Min(shares, rest[0].shares))], gone, u);
    assert rs' + [] == rs';
  }

  /** The sweep from a is what has been recorded since a, followed by the sweep from b. */
  ghost predicate Owed(bid: bool, limit: uint32, a: Snap, b: Snap) {
    && Within(a.ranked, a.nodes) && Within(b.ranked, b.nodes)
    && SameRecord(a.executed, a.removed, SweepFrom(bid, OrdersOf(a.ranked, a.nodes), limit, a.left),
                  b.executed, b.removed, SweepFrom(bid, OrdersOf(b.ranked, b.nodes), limit, b.left))
  }

  /** One match in terms of the lists of orders alone. */
  ghost predicate ListsMatched(bid: bool, limit: uint32, a: Snap, rest: seq<Order>, b: Snap, rest': seq<Order>) {
    && rest != [] && a.left > 0 && Crosses(bid, rest[0].price, limit)
    && rest' == (if a.left < rest[0].shares then [rest[0].(shares := rest[0].shares - a.left)] + rest[1..]
                 else rest[1..])
    && b.left == a.left - Min(a.left, rest[0].shares)
    && b.executed == a.executed + [Execution(rest[0].ref, Min(a.left, rest[0].shares))]
    && b.removed == if rest[0].shares <= a.left then a.removed + [rest[0].ref] else a.removed
  }

  lemma OwedLists(bid: bool, limit: uint32, a: Snap, s: Sweep, b: Snap, rest: seq<Order>, c: Snap, rest': seq<Order>)
    requires SameRecord(a.executed, a.removed, s, b.executed, b.removed, SweepFrom(bid, rest, limit, b.left))
    requires ListsMatched(bid, limit, b, rest, c, rest')
    ensures SameRecord(a.executed, a.removed, s, c.executed, c.removed, SweepFrom(bid, rest', limit, c.left))
  {
    SweepRecord(bid, rest, limit, b.left, rest', a.executed, a.removed, s, b.executed, b.removed);
  }

  ghost predicate OrderMatched(bid: bool, limit: uint32, a: Snap, b: Snap) {
    && Within(a.ranked, a.nodes) && Within(b.ranked, b.nodes)
    && ListsMatched(bid, limit, a, OrdersOf(a.ranked, a.nodes), b, OrdersOf(b.ranked, b.nodes))
  }

  lemma MatchedOrders(id: nat, bid: bool, limit: uint32, a: Snap, b: Snap)
    requires Matched(id, bid, limit, a, b)
    ensures OrderMatched(bid, limit, a, b)
  {
    ExecutedOrders(id, a.ranked, a.nodes, a.place, a.left, b.ranked, b.nodes, b.place);
  }

  lemma OwedMatch(bid: bool, limit: uint32, a: Snap, b: Snap, c: Snap)
    requires Owed(bid, limit, a, b) && OrderMatched(bid, limit, b, c)
    ensures Owed(bid, limit, a, c)
  {
    OwedLists(bid, limit, a, SweepFrom(bid, OrdersOf(a.ranked, a.nodes), limit, a.left),
              b, OrdersOf(b.ranked, b.nodes), c, OrdersOf(c.ranked, c.nodes));
  }

  lemma {:induction false} RunOwes(id: nat, bid: bool, limit: uint32, r: MatchRun)
    requires IsRun(id, bid, limit, r)
    requires Within(First(r).ranked, First(r).nodes)
    ensures Owed(bid, limit, First(r), r.s)
  {
    match r
    case Begin(_) =>
    case Then(run, s) =>
      RunOwes(id, bid, limit, run);
      MatchedOrders(id, bid, limit, run.s, s);
      OwedMatch(bid, limit, First(run), run.s, s);
  }

  /** What a finished sweep has done: the outputs of the specification, and a freed front stretch. */
  ghost predicate SweepDone(id: nat, bid: bool, limit: uint32, a: Snap, k: nat, b: Snap) {
    && FreedTo(id, a, k, b) && Within(a.ranked, a.nodes)
    && var s := SweepFrom(bid, OrdersOf(a.ranked, a.nodes), limit, a.left);
    && k == |s.removed|
    && OrdersOf(b.ranked, b.nodes) == s.rest && b.left == s.left
    && b.executed == a.executed + s.executions
    && b.removed == a.removed + s.removed
  }

  /** A run that cannot go on is a whole sweep. */
  lemma SweptDone(id: nat, bid: bool, limit: uint32, a: Snap, b: Snap) returns (k: nat)
    requires SweptTo(id, bid, limit, a, b) && Members(id, a.ranked, a.nodes, a.place)
    requires Within(b.ranked, b.nodes)
    requires b.left == 0 || b.ranked == [] || !Crosses(bid, Price(b.nodes, b.ranked[0]), limit)
    ensures SweepDone(id, bid, limit, a, k, b)
  {
    var r: MatchRun :| IsRun(id, bid, limit, r) && First(r) == a && r.s == b;
    k := RunFrees(id, bid, limit, r);
    RunOwes(id, bid, limit, r);
    var rest := OrdersOf(b.ranked, b.nodes);
    assert b.ranked != [] ==> rest[0].price == Price(b.nodes, b.ranked[0]);
    assert SweepFrom(bid, rest, limit, b.left) == Sweep([], [], rest, b.left);
    assert b.executed + [] == b.executed && b.removed + [] == b.removed;
  }

  /** Any level of a sound side may be about to be drained; the front price beats nothing better. */
  lemma StartDraining(s: Side, ref: LevelRef, ranked: seq<uint32>, nodes: seq<Node>, place: seq<Place>)
    requires SideOK(s, ranked, nodes, place, None) && ranked != []
    ensures SideOK(s, ranked, nodes, place, Some(ref))
    ensures NoneBeats(s.bid, Price(nodes, ranked[0]), ranked, nodes)
  {
    forall i | 0 <= i < |ranked| ensures !Better(s.bid, Price(nodes, ranked[i]), Price(nodes, ranked[0])) {
      assert NotBetter(s.bid, ranked, nodes, 0, i);
    }
  }

  /** No queued order of the side is better priced than p. */
  ghost predicate NoneBeats(bid: bool, p: int, ranked: seq<uint32>, nodes: seq<Node>)
    requires Within(ranked, nodes)
  {
    forall i | 0 <= i < |ranked| :: !Better(bid, Price(nodes, ranked[i]), p)
  }

  lemma NoneBeatsStep(id: nat, bid: bool, p: int, ranked: seq<uint32>, nodes: seq<Node>, place: seq<Place>,
                      shares: uint32,
                      ranked': seq<uint32>, nodes': seq<Node>, place': seq<Place>)
    requires Members(id, ranked, nodes, place) && ranked != []
    requires Executed(id, ranked, nodes, place, shares, ranked', nodes', place')
    requires NoneBeats(bid, p, ranked, nodes)
    ensures Within(ranked', nodes') && NoneBeats(bid, p, ranked', nodes')
  {
    ExecutedDrained(id, ranked, nodes, place, shares, ranked', nodes', place');
  }

  /** The head of a level that nothing beats is the front of the list. */
  lemma FrontOfLevel(s: Side, ref: LevelRef, ranked: seq<uint32>, nodes: seq<Node>, place: seq<Place>)
    requires SideOK(s, ranked, nodes, place, Some(ref)) && HasRef(s, ref) && 0 <= RefPrice(s, ref) < TWO_32
    requires NoneBeats(s.bid, RefPrice(s, ref), ranked, nodes) && GetLevel(s, ref).head != INVALID
    ensures ranked != [] && GetLevel(s, ref).head == ranked[0] && Price(nodes, ranked[0]) == RefPrice(s, ref)
  {
    var lvl := GetLevel(s, ref);
    assert LevelIs(s.id, lvl, RefPrice(s, ref), nodes, place);
    HeadIsFront(s.id, s.bid, ranked, nodes, place, lvl, RefPrice(s, ref));
  }

  // ---- What handling an order does to the rest of the arena ----

  /** All sides but a and b keep their slots, untouched. */
  ghost predicate Elsewhere(a: nat, b: nat, nodes: seq<Node>, place: seq<Place>, nodes': seq<Node>,
                            place': seq<Place>) {
    && |place| == |nodes| <= |nodes'| == |place'| <= INVALID
    && (forall n | 0 <= n < |nodes| && place[n].Queued? && place[n].side != a && place[n].side != b ::
          place'[n] == place[n] && nodes'[n] == nodes[n])
    && (forall n | 0 <= n < |nodes'| && place'[n].Queued? && place'[n].side != a && place'[n].side != b ::
          n < |nodes| && place[n] == place'[n])
  }

  lemma ElsewhereSame(a: nat, b: nat, id: nat, nodes: seq<Node>, place: seq<Place>, nodes': seq<Node>,
                      place': seq<Place>)
    requires Elsewhere(a, b, nodes, place, nodes', place') && id != a && id != b
    ensures SameQueues(id, nodes, place, nodes', place')
  {
  }

  /** Live slots, by reference: those in `gone` leave, `idx` (if any) joins side `own`, the others stay. */
  ghost predicate Relocated(own: nat, ref: uint64, gone: seq<uint32>, idx: uint32, nodes: seq<Node>, place: seq<Place>,
                            nodes': seq<Node>, place': seq<Place>)
  {
    && |place| == |nodes| <= |nodes'| == |place'| <= INVALID
    && (forall n | 0 <= n < |nodes| && place[n].Queued? && n !in gone ::
          n != idx && place'[n] == place[n] && nodes'[n].order.ref == nodes[n].order.ref)
    && (forall n | 0 <= n < |nodes'| && place'[n].Queued? && n != idx ::
          n < |nodes| && place[n] == place'[n] && n !in gone)
    && (forall n | 0 <= n < |nodes'| && place'[n] == Detached :: n < |nodes| && place[n] == Detached)
    && (idx != INVALID ==> idx < |nodes'| && place'[idx] == Queued(own) && nodes'[idx].order.ref == ref)
  }

  lemma DrainedElsewhere(id: nat, ranked: seq<uint32>, k: nat, nodes: seq<Node>, place: seq<Place>,
                         nodes': seq<Node>, place': seq<Place>, own: nat, ref: uint64)
    requires Drained(id, ranked, k, nodes, place, nodes', place') && |nodes| <= INVALID
    requires forall i | 0 <= i < |ranked| :: ranked[i] < |nodes| && place[ranked[i]] == Queued(id)
    ensures Elsewhere(id, id, nodes, place, nodes', place')
    ensures Relocated(own, ref, ranked[..k], INVALID, nodes, place, nodes', place')
  {
    forall n | n in ranked[..k] ensures 0 <= n < |nodes| && place[n] == Queued(id) { }
  }

  /** A slot that was on no queue has been filled with an order. */
  ghost predicate Taken(idx: uint32, order: Order, nodes: seq<Node>, place: seq<Place>, nodes': seq<Node>,
                        place': seq<Place>) {
    && |place| == |nodes| <= |nodes'| == |place'| <= INVALID && |nodes'| <= |nodes| + 1
    && idx < |nodes'| && (idx < |nodes| ==> place[idx] == Free) && (|nodes| < |nodes'| ==> idx == |nodes|)
    && place'[idx] == Detached && nodes'[idx].order == order
    && (forall n | 0 <= n < |nodes| && n != idx :: nodes'[n] == nodes[n] && place'[n] == place[n])
  }

  lemma TakenSame(idx: uint32, order: Order, nodes: seq<Node>, place: seq<Place>, nodes': seq<Node>,
                  place': seq<Place>, id: nat)
    requires Taken(idx, order, nodes, place, nodes', place')
    ensures SameQueues(id, nodes, place, nodes', place')
    ensures forall n | 0 <= n < |nodes| && place[n] == Queued(id) :: nodes'[n] == nodes[n]
  {
  }

  /** Draining `opp`, then taking a slot, then linking it on side `own`. */
  lemma RestedElsewhere(opp: nat, own: nat, gone: seq<uint32>, idx: uint32, order: Order,
                        nodes: seq<Node>, place: seq<Place>, nodes1: seq<Node>, place1: seq<Place>,
                        nodes2: seq<Node>, place2: seq<Place>, nodes3: seq<Node>)
    requires Elsewhere(opp, opp, nodes, place, nodes1, place1)
    requires Relocated(own, order.ref, gone, INVALID, nodes, place, nodes1, place1)
    requires Taken(idx, order, nodes1, place1, nodes2, place2)
    requires Relinked(own, idx, place2, nodes2, nodes3)
    ensures Elsewhere(own, opp, nodes, place, nodes3, place2[idx := Queued(own)])
    ensures Relocated(own, order.ref, gone, idx, nodes, place, nodes3, place2[idx := Queued(own)])
  {
  }

  lemma InsertOrders(ranked: seq<uint32>, nodes: seq<Node>, nodes': seq<Node>, k: nat, idx: uint32)
    requires Within(ranked, nodes) && k <= |ranked| && idx < |nodes'| && |nodes| <= |nodes'|
    requires forall i | 0 <= i < |ranked| :: nodes'[ranked[i]].order == nodes[ranked[i]].order
    ensures Within(InsertAt(ranked, k, idx), nodes')
    ensures OrdersOf(InsertAt(ranked, k, idx), nodes') == InsertAt(OrdersOf(ranked, nodes), k, nodes'[idx].order)
  {
  }

  /** Unlinking slot idx from side `id` and freeing it. */
  lemma RemovedElsewhere(id: nat, idx: uint32, nodes: seq<Node>, place: seq<Place>, nodes1: seq<Node>,
                         nodes2: seq<Node>,
                         own: nat, ref: uint64)
    requires Relinked(id, idx, place, nodes, nodes1) && |nodes2| == |nodes1| <= INVALID
    requires idx < |nodes| && place[idx] == Queued(id)
    requires nodes2[idx].order == nodes1[idx].order
    requires forall n | 0 <= n < |nodes1| && n != idx :: nodes2[n] == nodes1[n]
    ensures Elsewhere(id, id, nodes, place, nodes2, place[idx := Free])
    ensures Relocated(own, ref, [idx], INVALID, nodes, place, nodes2, place[idx := Free])
  {
  }

  lemma RemoveOrders(ranked: seq<uint32>, nodes: seq<Node>, nodes': seq<Node>, k: nat)
    requires Within(ranked, nodes) && k < |ranked| && |nodes| == |nodes'|
    requires forall i | 0 <= i < |ranked| :: nodes'[ranked[i]].order == nodes[ranked[i]].order
    ensures Within(RemoveAt(ranked, k), nodes')
    ensures OrdersOf(RemoveAt(ranked, k), nodes') == RemoveAt(OrdersOf(ranked, nodes), k)
  {
  }

  class OrderBook {
    const pool: OrderPool
    const bids: LadderSide
    const asks: LadderSide

    constructor (pool: OrderPool, ghost number: nat)
      ensures this.pool == pool
      ensures fresh(bids) && fresh(asks)
      ensures bids.bid && bids.id == 2 * number && bids.ranked == []
      ensures !asks.bid && asks.id == 2 * number + 1 && asks.ranked == []
      ensures !bids.anchored && bids.overflow == [] && bids.bestSlot == INVALID
      ensures !asks.anchored && asks.overflow == [] && asks.bestSlot == INVALID
    {
      this.pool := pool;
      bids := new LadderSide(true, 2 * number);
      asks := new LadderSide(false, 2 * number + 1);
    }

    /** Takes the front of the list out of its level. */
    method DetachHead(opp: LadderSide, ref: LevelRef) returns (filled: uint32)
      requires SideOK(opp.State(), opp.ranked, pool.nodes, pool.place, Some(ref))
      requires HasRef(opp.State(), ref) && opp.ranked != []
      requires opp.LevelAt(ref).head == opp.ranked[0] && RefPrice(opp.State(), ref) == Price(pool.nodes, opp.ranked[0])
      modifies pool`nodes, opp`ladder, opp`overflow
      ensures filled == opp.ranked[0]
      ensures Removed(old(opp.State()), opp.ranked, old(pool.nodes), pool.place, 0, opp.State(), pool.nodes, Some(ref))
      ensures HasRef(opp.State(), ref) && RefPrice(opp.State(), ref) == old(RefPrice(opp.State(), ref))
    {
      ghost var s, nodes := opp.State(), pool.nodes;
      UnlinkDirty(s, ref, opp.ranked, nodes, pool.place, 0, Some(ref));
      assert LevelIs(opp.id, GetLevel(s, ref), RefPrice(s, ref), nodes, pool.place);
      var lvl := opp.LevelAt(ref);
      filled := lvl.head;
      var next := pool.nodes[filled].next;
      if next != INVALID {
        pool.nodes := pool.nodes[next := pool.nodes[next].(prev := INVALID)];
        opp.PutLevel(ref, lvl.(head := next));
      } else {
        opp.PutLevel(ref, EMPTY_LEVEL);
      }
      assert pool.nodes == UnlinkNodes(nodes, filled);
      assert opp.State() == SetLevel(s, ref, UnlinkedLevel(lvl, nodes[filled]));
    }

    /** Takes the front of the list out of its level and frees its slot. */
    method PopHead(opp: LadderSide, ref: LevelRef)
      requires pool.Valid() && SideOK(opp.State(), opp.ranked, pool.nodes, pool.place, Some(ref))
      requires HasRef(opp.State(), ref) && opp.ranked != []
      requires opp.LevelAt(ref).head == opp.ranked[0] && RefPrice(opp.State(), ref) == Price(pool.nodes, opp.ranked[0])
      modifies pool, opp`ladder, opp`overflow, opp`ranked
      ensures pool.Valid() && SideOK(opp.State(), opp.ranked, pool.nodes, pool.place, Some(ref))
      ensures HasRef(opp.State(), ref) && RefPrice(opp.State(), ref) == old(RefPrice(opp.State(), ref))
      ensures opp.ranked == old(opp.ranked)[1..]
      ensures Popped(opp.id, old(opp.ranked[0]), old(pool.nodes), old(pool.place), pool.nodes, pool.place)
    {
      ghost var ranked, nodes, place := opp.ranked, pool.nodes, pool.place;
      var filled := DetachHead(opp, ref);
      assert ranked[1..] == RemoveAt(ranked, 0);
      opp.ranked := opp.ranked[1..];
      pool.place := pool.place[filled := Detached];
      RelinkedFree(opp.id, filled, nodes, place, pool.nodes, Detached, pool.freeHead, pool.freeList);
      ghost var nodes1, place1 := pool.nodes, pool.place;
      pool.FreeSlot(filled);
      SideFrame(opp.State(), opp.ranked, nodes1, place1, pool.nodes, pool.place, Some(ref));
      PoppedBy(opp.id, filled, nodes, place, nodes1, pool.nodes);
    }

    /** One match of an incoming order against the front of the opposite list. */
    method ExecuteHead(opp: LadderSide, ref: LevelRef, shares: uint32, scratch: EngineScratch) returns (left: uint32)
      requires pool.Valid() && SideOK(opp.State(), opp.ranked, pool.nodes, pool.place, Some(ref))
      requires HasRef(opp.State(), ref) && opp.ranked != []
      requires opp.LevelAt(ref).head == opp.ranked[0] && RefPrice(opp.State(), ref) == Price(pool.nodes, opp.ranked[0])
      modifies pool, opp`ladder, opp`overflow, opp`ranked, scratch
      ensures pool.Valid() && SideOK(opp.State(), opp.ranked, pool.nodes, pool.place, Some(ref))
      ensures HasRef(opp.State(), ref) && RefPrice(opp.State(), ref) == old(RefPrice(opp.State(), ref))
      ensures Executed(opp.id, old(opp.ranked), old(pool.nodes), old(pool.place), shares,
                       opp.ranked, pool.nodes, pool.place)
      ensures var front := old(pool.nodes[opp.ranked[0]].order);
              && left == shares - Min(shares, front.shares)
              && scratch.executedOrders ==
                 old(scratch.executedOrders) + [Execution(front.ref, Min(shares, front.shares))]
              && scratch.removedRefs ==
                   if front.shares <= shares then old(scratch.removedRefs) + [front.ref] else old(scratch.removedRefs)
    {
      var head := opp.LevelAt(ref).head;
      var resting := pool.nodes[head].order;
      var executedShares := Min(shares, resting.shares);
      scratch.executedOrders := scratch.executedOrders + [Execution(resting.ref, executedShares)];
      left := shares - executedShares;
      if resting.shares == executedShares {
        scratch.removedRefs := scratch.removedRefs + [resting.ref];
        FillHead(opp, ref, head, shares);
      } else {
        TakeShares(opp, Some(ref), head, resting.shares - executedShares);
      }
    }

    /** The front order has no shares left: it leaves the list and its slot is freed. */
    method FillHead(opp: LadderSide, ref: LevelRef, head: uint32, ghost shares: uint32)
      requires pool.Valid() && SideOK(opp.State(), opp.ranked, pool.nodes, pool.place, Some(ref))
      requires HasRef(opp.State(), ref) && opp.ranked != [] && head == opp.ranked[0]
      requires opp.LevelAt(ref).head == opp.ranked[0] && RefPrice(opp.State(), ref) == Price(pool.nodes, opp.ranked[0])
      requires pool.nodes[head].order.shares <= shares
      modifies pool, opp`ladder, opp`overflow, opp`ranked
      ensures pool.Valid() && SideOK(opp.State(), opp.ranked, pool.nodes, pool.place, Some(ref))
      ensures HasRef(opp.State(), ref) && RefPrice(opp.State(), ref) == old(RefPrice(opp.State(), ref))
      ensures Executed(opp.id, old(opp.ranked), old(pool.nodes), old(pool.place), shares,
                       opp.ranked, pool.nodes, pool.place)
    {
      TakeShares(opp, Some(ref), head, 0);
      PopHead(opp, ref);
    }

    /** Sets the share count of a slot in place. */
    method TakeShares(side: LadderSide, ghost dirty: Option<LevelRef>, n: uint32, shares: uint32)
      requires pool.Valid() && SideOK(side.State(), side.ranked, pool.nodes, pool.place, dirty)
      requires n < |pool.nodes|
      modifies pool`nodes
      ensures pool.Valid() && SideOK(side.State(), side.ranked, pool.nodes, pool.place, dirty)
      ensures pool.nodes == WithShares(old(pool.nodes), n, shares)
    {
      SharesSide(side.State(), side.ranked, pool.nodes, pool.place, dirty, n, shares);
      SharesFree(pool.nodes, pool.place, pool.freeHead, pool.freeList, n, shares);
      pool.nodes := WithShares(pool.nodes, n, shares);
    }

    ghost function Now(opp: LadderSide, scratch: EngineScratch, left: uint32): (s: Snap)
      reads opp, pool, scratch
    {
      Snap(opp.ranked, pool.nodes, pool.place, scratch.executedOrders, scratch.removedRefs, left)
    }

    /** Matches against one level until the incoming shares or the level are used up. */
    method FillLevel(opp: LadderSide, ref: LevelRef, limit: uint32, shares: uint32, scratch: EngineScratch,
                     ghost start: Snap) returns (left: uint32)
      requires pool.Valid() && SideOK(opp.State(), opp.ranked, pool.nodes, pool.place, Some(ref))
      requires HasRef(opp.State(), ref) && 0 <= RefPrice(opp.State(), ref) < TWO_32
      requires Crosses(opp.bid, RefPrice(opp.State(), ref), limit)
      requires NoneBeats(opp.bid, RefPrice(opp.State(), ref), opp.ranked, pool.nodes)
      requires shares > 0 && opp.LevelAt(ref).head != INVALID
      requires SweptTo(opp.id, opp.bid, limit, start, Now(opp, scratch, shares))
      modifies pool, opp`ladder, opp`overflow, opp`ranked, scratch
      ensures pool.Valid() && SideOK(opp.State(), opp.ranked, pool.nodes, pool.place, Some(ref))
      ensures HasRef(opp.State(), ref) && RefPrice(opp.State(), ref) == old(RefPrice(opp.State(), ref))
      ensures SweptTo(opp.id, opp.bid, limit, start, Now(opp, scratch, left))
      ensures left == 0 || opp.LevelAt(ref).head == INVALID
      ensures left < shares || |opp.ranked| < |old(opp.ranked)|
      ensures left <= shares && |opp.ranked| <= |old(opp.ranked)|
    {
      left := shares;
      while left > 0 && opp.LevelAt(ref).head != INVALID
        invariant pool.Valid() && SideOK(opp.State(), opp.ranked, pool.nodes, pool.place, Some(ref))
        invariant HasRef(opp.State(), ref) && RefPrice(opp.State(), ref) == old(RefPrice(opp.State(), ref))
        invariant NoneBeats(opp.bid, RefPrice(opp.State(), ref), opp.ranked, pool.nodes)
        invariant SweptTo(opp.id, opp.bid, limit, start, Now(opp, scratch, left))
        invariant left <= shares && |opp.ranked| <= |old(opp.ranked)|
        invariant left < shares || |opp.ranked| < |old(opp.ranked)| || opp.LevelAt(ref).head != INVALID
        decreases |opp.ranked|, left
      {
        FrontOfLevel(opp.State(), ref, opp.ranked, pool.nodes, pool.place);
        left := MatchOnce(opp, ref, limit, left, scratch, start);
      }
    }

    /** One match, as a step of the sweep it is part of. */
    method MatchOnce(opp: LadderSide, ref: LevelRef, limit: uint32, shares: uint32, scratch: EngineScratch,
                     ghost start: Snap) returns (left: uint32)
      requires pool.Valid() && SideOK(opp.State(), opp.ranked, pool.nodes, pool.place, Some(ref))
      requires HasRef(opp.State(), ref) && opp.ranked != []
      requires opp.LevelAt(ref).head == opp.ranked[0] && RefPrice(opp.State(), ref) == Price(pool.nodes, opp.ranked[0])
      requires Crosses(opp.bid, RefPrice(opp.State(), ref), limit) && shares > 0
      requires NoneBeats(opp.bid, RefPrice(opp.State(), ref), opp.ranked, pool.nodes)
      requires SweptTo(opp.id, opp.bid, limit, start, Now(opp, scratch, shares))
      modifies pool, opp`ladder, opp`overflow, opp`ranked, scratch
      ensures pool.Valid() && SideOK(opp.State(), opp.ranked, pool.nodes, pool.place, Some(ref))
      ensures HasRef(opp.State(), ref) && RefPrice(opp.State(), ref) == old(RefPrice(opp.State(), ref))
      ensures NoneBeats(opp.bid, RefPrice(opp.State(), ref), opp.ranked, pool.nodes)
      ensures SweptTo(opp.id, opp.bid, limit, start, Now(opp, scratch, left))
      ensures left <= shares && |opp.ranked| <= |old(opp.ranked)|
      ensures left < shares || |opp.ranked| < |old(opp.ranked)|
    {
      ghost var b := Now(opp, scratch, shares);
      left := ExecuteHead(opp, ref, shares, scratch);
      ghost var c := Now(opp, scratch, left);
      NoneBeatsStep(opp.id, opp.bid, RefPrice(opp.State(), ref), b.ranked, b.nodes, b.place, shares,
                    c.ranked, c.nodes, c.place);
      SweptMore(opp.id, opp.bid, limit, start, b, c);
    }

    /** Matches an incoming order with the given limit against the opposite side. */
    method MatchAgainst(opp: LadderSide, limit: uint32, shares: uint32, scratch: EngineScratch)
      returns (left: uint32, ghost k: nat)
      requires pool.Valid() && opp.Valid(pool)
      modifies pool, opp, scratch
      ensures pool.Valid() && opp.Valid(pool)
      ensures SweepDone(opp.id, opp.bid, limit, old(Now(opp, scratch, shares)), k, Now(opp, scratch, left))
    {
      left := shares;
      ghost var start := Now(opp, scratch, shares);
      SweptRefl(opp.id, opp.bid, limit, start);
      while left > 0
        invariant pool.Valid() && opp.Valid(pool)
        invariant SweptTo(opp.id, opp.bid, limit, start, Now(opp, scratch, left))
        decreases |opp.ranked|, left
      {
        var ref, bestPrice := opp.BestLevel(pool);
        if ref == None || !Crosses(opp.bid, bestPrice, limit) {
          break;
        }
        left := DrainBest(opp, ref.value, bestPrice, limit, left, scratch, start);
      }
      k := SweptDone(opp.id, opp.bid, limit, start, Now(opp, scratch, left));
    }

    /** Drains the best level as far as the incoming shares go, and repairs the best tracking. */
    method DrainBest(opp: LadderSide, ref: LevelRef, bestPrice: uint32, limit: uint32, shares: uint32,
                     scratch: EngineScratch, ghost start: Snap) returns (left: uint32)
      requires pool.Valid() && opp.Valid(pool) && opp.ranked != []
      requires HasRef(opp.State(), ref) && RefPrice(opp.State(), ref) == bestPrice == Price(pool.nodes, opp.ranked[0])
      requires opp.LevelAt(ref).head == opp.ranked[0]
      requires Crosses(opp.bid, bestPrice, limit) && shares > 0
      requires SweptTo(opp.id, opp.bid, limit, start, Now(opp, scratch, shares))
      modifies pool, opp, scratch
      ensures pool.Valid() && opp.Valid(pool)
      ensures SweptTo(opp.id, opp.bid, limit, start, Now(opp, scratch, left))
      ensures left <= shares && |opp.ranked| <= |old(opp.ranked)|
      ensures left < shares || |opp.ranked| < |old(opp.ranked)|
    {
      StartDraining(opp.State(), ref, opp.ranked, pool.nodes, pool.place);
      left := FillLevel(opp, ref, limit, shares, scratch, start);
      if opp.LevelAt(ref).head == INVALID {
        opp.RemoveEmptyBest(pool, bestPrice, ref);
      } else {
        CleanSide(opp.State(), ref, opp.ranked, pool.nodes, pool.place);
      }
    }

    /** Stores an order in a slot; no queue of any side changes. */
    method TakeSlot(order: Order, ghost own: LadderSide, ghost opp: LadderSide) returns (idx: uint32)
      requires pool.Valid() && own.Valid(pool) && opp.Valid(pool)
      requires pool.freeList == [] ==> |pool.nodes| < INVALID
      modifies pool
      ensures pool.Valid() && own.Valid(pool) && opp.Valid(pool)
      ensures Taken(idx, order, old(pool.nodes), old(pool.place), pool.nodes, pool.place)
      ensures own.Orders(pool) == old(own.Orders(pool)) && opp.Orders(pool) == old(opp.Orders(pool))
      ensures |pool.nodes| > old(|pool.nodes|) ==> pool.freeList == []
    {
      ghost var nodes, place := pool.nodes, pool.place;
      idx := pool.Allocate(order);
      TakenSame(idx, order, nodes, place, pool.nodes, pool.place, own.id);
      TakenSame(idx, order, nodes, place, pool.nodes, pool.place, opp.id);
      SideFrame(own.State(), own.ranked, nodes, place, pool.nodes, pool.place, None);
      SideFrame(opp.State(), opp.ranked, nodes, place, pool.nodes, pool.place, None);
    }

    /** Rests an order on its own side. */
    method RestOrder(order: Order, own: LadderSide, ghost opp: LadderSide)
      returns (idx: uint32, ghost nodes2: seq<Node>, ghost place2: seq<Place>)
      requires pool.Valid() && own.Valid(pool) && opp.Valid(pool) && own.id != opp.id
      requires pool.freeList == [] ==> |pool.nodes| < INVALID
      modifies pool, own
      ensures pool.Valid() && own.Valid(pool) && opp.Valid(pool)
      ensures own.Orders(pool) == Rest(own.bid, old(own.Orders(pool)), order)
      ensures opp.Orders(pool) == old(opp.Orders(pool))
      ensures Taken(idx, order, old(pool.nodes), old(pool.place), nodes2, place2)
      ensures Relinked(own.id, idx, place2, nodes2, pool.nodes) && pool.place == place2[idx := Queued(own.id)]
      ensures |pool.nodes| > old(|pool.nodes|) ==> pool.freeList == []
    {
      idx := TakeSlot(order, own, opp);
      nodes2, place2 := pool.nodes, pool.place;
      AddBeside(order.price, idx, own, opp);
    }

    /** Queueing a slot on one side leaves the other side alone. */
    method AddBeside(price: uint32, idx: uint32, own: LadderSide, ghost opp: LadderSide)
      requires pool.Valid() && own.Valid(pool) && opp.Valid(pool) && own.id != opp.id
      requires idx < |pool.nodes| && pool.place[idx] == Detached && Price(pool.nodes, idx) == price
      modifies own, pool`nodes, pool`place
      ensures pool.Valid() && own.Valid(pool) && opp.Valid(pool)
      ensures own.Orders(pool) == Rest(own.bid, old(own.Orders(pool)), old(pool.nodes[idx].order))
      ensures opp.Orders(pool) == old(opp.Orders(pool))
      ensures Relinked(own.id, idx, old(pool.place), old(pool.nodes), pool.nodes)
      ensures pool.place == old(pool.place)[idx := Queued(own.id)]
    {
      ghost var nodes, place, ranked := pool.nodes, pool.place, own.ranked;
      own.Add(pool, price, idx);
      SideFrame(opp.State(), opp.ranked, nodes, place, pool.nodes, pool.place, None);
      InsertOrders(ranked, nodes, pool.nodes, InsertPos(own.bid, OrdersOf(ranked, nodes), price), idx);
    }

    /** Matches an order against the other side, then rests what is left on its own. */
    method HandleAgainst(order: Order, own: LadderSide, opp: LadderSide, scratch: EngineScratch)
      returns (restingIdx: uint32, ghost gone: seq<uint32>)
      requires pool.Valid() && own.Valid(pool) && opp.Valid(pool) && own.id != opp.id
      requires |pool.nodes| < INVALID
      modifies pool, own, opp, scratch
      ensures pool.Valid() && own.Valid(pool) && opp.Valid(pool)
      ensures var s := SweepFrom(opp.bid, old(opp.Orders(pool)), order.price, order.shares);
              && opp.Orders(pool) == s.rest
              && own.Orders(pool) == (if s.left > 0 then Rest(own.bid, old(own.Orders(pool)), order.(shares := s.left))
                                      else old(own.Orders(pool)))
              && (restingIdx == INVALID <==> s.left == 0)
              && scratch.executedOrders == old(scratch.executedOrders) + s.executions
              && scratch.removedRefs == old(scratch.removedRefs) + s.removed
              && |gone| == |s.removed| && gone <= old(opp.ranked)
      ensures Elsewhere(own.id, opp.id, old(pool.nodes), old(pool.place), pool.nodes, pool.place)
      ensures Relocated(own.id, order.ref, gone, restingIdx, old(pool.nodes), old(pool.place), pool.nodes, pool.place)
      ensures |pool.nodes| > old(|pool.nodes|) ==> |pool.nodes| == old(|pool.nodes|) + 1 && pool.freeList == []
    {
      ghost var nodes, place := pool.nodes, pool.place;
      var left;
      left, gone := MatchBeside(order, own, opp, scratch);
      if left > 0 {
        ghost var nodes1, place1, nodes2, place2 := pool.nodes, pool.place, [], [];
        restingIdx, nodes2, place2 := RestOrder(order.(shares := left), own, opp);
        RestedElsewhere(opp.id, own.id, gone, restingIdx, order.(shares := left), nodes, place, nodes1, place1,
                        nodes2, place2, pool.nodes);
      } else {
        restingIdx := INVALID;
      }
    }

    /** The matching phase leaves the order's own side alone. */
    method MatchBeside(order: Order, ghost own: LadderSide, opp: LadderSide, scratch: EngineScratch)
      returns (left: uint32, ghost gone: seq<uint32>)
      requires pool.Valid() && own.Valid(pool) && opp.Valid(pool) && own.id != opp.id
      modifies pool, opp, scratch
      ensures pool.Valid() && own.Valid(pool) && opp.Valid(pool)
      ensures var s := SweepFrom(opp.bid, old(opp.Orders(pool)), order.price, order.shares);
              && opp.Orders(pool) == s.rest && left == s.left
              && scratch.executedOrders == old(scratch.executedOrders) + s.executions
              && scratch.removedRefs == old(scratch.removedRefs) + s.removed
              && |gone| == |s.removed| && gone <= old(opp.ranked)
      ensures own.Orders(pool) == old(own.Orders(pool))
      ensures |pool.nodes| == old(|pool.nodes|)
      ensures Elsewhere(opp.id, opp.id, old(pool.nodes), old(pool.place), pool.nodes, pool.place)
      ensures Relocated(own.id, order.ref, gone, INVALID, old(pool.nodes), old(pool.place), pool.nodes, pool.place)
    {
      ghost var ranked, nodes, place := opp.ranked, pool.nodes, pool.place;
      ghost var k;
      left, k := MatchAgainst(opp, order.price, order.shares, scratch);
      gone := ranked[..k];
      DrainedElsewhere(opp.id, ranked, k, nodes, place, pool.nodes, pool.place, own.id, order.ref);
      ElsewhereSame(opp.id, opp.id, own.id, nodes, place, pool.nodes, pool.place);
      SideFrame(own.State(), own.ranked, nodes, place, pool.nodes, pool.place, None);
    }

    /** The side an order rests on, and the side it matches against. */
    function Own(side: char): (s: LadderSide)
      ensures side == 'B' ==> s == bids
      ensures side == 'S' ==> s == asks
    {
      if side == BUY then bids else asks
    }

    function Opp(side: char): (s: LadderSide)
      ensures side == 'B' ==> s == asks
      ensures side == 'S' ==> s == bids
    {
      if side == BUY then asks else bids
    }

    ghost predicate Valid()
      reads pool, bids, asks
    {
      && pool.Valid() && bids.Valid(pool) && asks.Valid(pool)
      && bids.bid && !asks.bid && bids.id != asks.id
    }

    /** Takes a live slot out of its level and returns it to the free list. */
    method RemoveByIndex(idx: uint32, ghost k: nat)
      requires Valid()
      requires idx < |pool.nodes|
      requires var side := Own(pool.nodes[idx].order.side); k < |side.ranked| && side.ranked[k] == idx
      modifies pool, Own(pool.nodes[idx].order.side)
      ensures Valid()
      ensures var c := old(pool.nodes[idx].order.side);
              && Own(c).Orders(pool) == RemoveAt(old(Own(pool.nodes[idx].order.side).Orders(pool)), k)
              && Opp(c).Orders(pool) == old(Opp(pool.nodes[idx].order.side).Orders(pool))
              && Elsewhere(Own(c).id, Own(c).id, old(pool.nodes), old(pool.place), pool.nodes, pool.place)
      ensures Relocated(0, 0, [idx], INVALID, old(pool.nodes), old(pool.place), pool.nodes, pool.place)
      ensures |pool.nodes| == old(|pool.nodes|)
    {
      var price := pool.nodes[idx].order.price;
      if pool.nodes[idx].order.side == BUY {
        RemoveFrom(bids, asks, price, idx, k);
      } else {
        RemoveFrom(asks, bids, price, idx, k);
      }
    }

    method RemoveFrom(own: LadderSide, ghost opp: LadderSide, price: uint32, idx: uint32, ghost k: nat)
      requires pool.Valid() && own.Valid(pool) && opp.Valid(pool) && own.id != opp.id
      requires k < |own.ranked| && own.ranked[k] == idx && Price(pool.nodes, idx) == price
      modifies pool, own
      ensures pool.Valid() && own.Valid(pool) && opp.Valid(pool)
      ensures own.Orders(pool) == RemoveAt(old(own.Orders(pool)), k)
      ensures opp.Orders(pool) == old(opp.Orders(pool))
      ensures Elsewhere(own.id, own.id, old(pool.nodes), old(pool.place), pool.nodes, pool.place)
      ensures Relocated(0, 0, [idx], INVALID, old(pool.nodes), old(pool.place), pool.nodes, pool.place)
      ensures |pool.nodes| == old(|pool.nodes|)
    {
      ghost var ranked, nodes, place := own.ranked, pool.nodes, pool.place;
      UnlinkAndFree(own, price, idx, k);
      ElsewhereSame(own.id, own.id, opp.id, nodes, place, pool.nodes, pool.place);
      SideFrame(opp.State(), opp.ranked, nodes, place, pool.nodes, pool.place, None);
      RemoveOrders(ranked, nodes, pool.nodes, k);
    }

    method UnlinkAndFree(own: LadderSide, price: uint32, idx: uint32, ghost k: nat)
      requires pool.Valid() && own.Valid(pool)
      requires k < |own.ranked| && own.ranked[k] == idx && Price(pool.nodes, idx) == price
      modifies pool, own
      ensures pool.Valid() && own.Valid(pool) && own.ranked == RemoveAt(old(own.ranked), k)
      ensures Elsewhere(own.id, own.id, old(pool.nodes), old(pool.place), pool.nodes, pool.place)
      ensures Relocated(0, 0, [idx], INVALID, old(pool.nodes), old(pool.place), pool.nodes, pool.place)
      ensures |pool.nodes| == old(|pool.nodes|)
      ensures forall n | 0 <= n < |pool.nodes| :: pool.nodes[n].order == old(pool.nodes[n].order)
    {
      ghost var nodes, place := pool.nodes, pool.place;
      own.Remove(pool, price, idx, k);
      ghost var nodes1, place1 := pool.nodes, pool.place;
      pool.FreeSlot(idx);
      SideFrame(own.State(), own.ranked, nodes1, place1, pool.nodes, pool.place, None);
      RemovedElsewhere(own.id, idx, nodes, place, nodes1, pool.nodes, 0, 0);
    }

    /** Dispatches on the side; any other indicator is an error and changes nothing. */
    method HandleOrder(order: Order, scratch: EngineScratch)
      returns (ok: bool, restingIdx: uint32, ghost gone: seq<uint32>)
      requires Valid()
      requires |pool.nodes| < INVALID
      modifies pool, bids, asks, scratch
      ensures Valid()
      ensures ok <==> order.side == 'B' || order.side == 'S'
      ensures !ok ==> unchanged(pool) && unchanged(bids) && unchanged(asks) && unchanged(scratch)
      ensures ok ==>
                var own, opp := Own(order.side), Opp(order.side);
                var s := SweepFrom(opp.bid, old(Opp(order.side).Orders(pool)), order.price, order.shares);
                && opp.Orders(pool) == s.rest
                && own.Orders(pool) == (if s.left > 0
                                        then Rest(own.bid, old(Own(order.side).Orders(pool)), order.(shares := s.left))
                                        else old(Own(order.side).Orders(pool)))
                && (restingIdx == INVALID <==> s.left == 0)
                && scratch.executedOrders == old(scratch.executedOrders) + s.executions
                && scratch.removedRefs == old(scratch.removedRefs) + s.removed
                && |gone| == |s.removed| && gone <= old(Opp(order.side).ranked)
                && Elsewhere(own.id, opp.id, old(pool.nodes), old(pool.place), pool.nodes, pool.place)
                && Relocated(own.id, order.ref, gone, restingIdx, old(pool.nodes), old(pool.place),
                             pool.nodes, pool.place)
                && (|pool.nodes| > old(|pool.nodes|) ==> |pool.nodes| == old(|pool.nodes|) + 1 && pool.freeList == [])
    {
      ok, restingIdx, gone := true, INVALID, [];
      if order.side == BUY {
        restingIdx, gone := HandleAgainst(order, bids, asks, scratch);
      } else if order.side == SELL {
        restingIdx, gone := HandleAgainst(order, asks, bids, scratch);
      } else {
        ok := false;
      }
    }
  }
}
