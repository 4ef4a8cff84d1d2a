/**
  What one side of a book means: a single list of resting orders in price-time priority,
  best price first and, at one price, earliest arrival first. An incoming order consumes
  the front of the opposite list and joins its own list behind every order that is at
  least as well priced.
 */
module BookSpec {
  import opened Words

  datatype Order = Order(ref: uint64, shares: uint32, price: uint32, side: char)

  datatype Execution = Execution(ref: uint64, shares: uint32)

  const BUY: char := 'B'
  const SELL: char := 'S'

  function SideChar(bid: bool): char {
    if bid then BUY else SELL
  }

  /** Price p is strictly better than q for orders resting on this side. */
  predicate Better(bid: bool, p: int, q: int) {
    if bid then p > q else p < q
  }

  /** A resting price on this side meets the limit of an order on the other side. */
  predicate Crosses(bid: bool, resting: int, limit: int) {
    if bid then resting >= limit else resting <= limit
  }

  /** Order j is not better priced than order i. */
  ghost predicate Behind(bid: bool, rest: seq<Order>, i: nat, j: nat)
    requires i < |rest| && j < |rest|
  {
    !Better(bid, rest[j].price, rest[i].price)
  }

  ghost predicate Ranked(bid: bool, rest: seq<Order>) {
    forall i: nat, j: nat {:trigger Behind(bid, rest, i, j)} | i <= j < |rest| :: Behind(bid, rest, i, j)
  }

  /** Entry i of `sub` is entry n + i of `rest`, possibly with another share count. */
  ghost predicate TailEntry(rest: seq<Order>, sub: seq<Order>, n: nat, i: nat)
    requires i < |sub| && |sub| + n == |rest|
  {
    sub[i].shares > 0 && sub[i] == rest[n + i].(shares := sub[i].shares)
  }

  /** `sub` is `rest` without its first n orders, up to share counts. */
  ghost predicate IsTail(rest: seq<Order>, sub: seq<Order>, n: nat) {
    && |sub| + n == |rest|
    && (forall i: nat {:trigger TailEntry(rest, sub, n, i)} | i < |sub| :: TailEntry(rest, sub, n, i))
  }

  lemma TailRanked(bid: bool, rest: seq<Order>, sub: seq<Order>, n: nat)
    requires Ranked(bid, rest) && IsTail(rest, sub, n)
    ensures Ranked(bid, sub)
  {
    forall i: nat, j: nat | i <= j < |sub| ensures Behind(bid, sub, i, j) {
      assert Behind(bid, rest, n + i, n + j) && TailEntry(rest, sub, n, i) && TailEntry(rest, sub, n, j);
    }
  }

  lemma RankedTail(bid: bool, rest: seq<Order>)
    requires Ranked(bid, rest) && rest != []
    ensures Ranked(bid, rest[1..])
  {
    forall i: nat, j: nat | i <= j < |rest| - 1 ensures Behind(bid, rest[1..], i, j) {
      assert Behind(bid, rest, i + 1, j + 1);
    }
  }

  ghost predicate Funded(rest: seq<Order>) {
    forall i | 0 <= i < |rest| :: rest[i].shares > 0
  }

  // ---- Matching ----

  datatype Sweep = Sweep(executions: seq<Execution>, removed: seq<uint64>, rest: seq<Order>, left: uint32)

  /** Consumes the front of `rest` while it crosses `limit` and shares remain. */
  function SweepFrom(bid: bool, rest: seq<Order>, limit: uint32, shares: uint32): (s: Sweep)
    decreases |rest|
  {
    if shares == 0 || rest == [] || !Crosses(bid, rest[0].price, limit) then
      Sweep([], [], rest, shares)
    else if shares < rest[0].shares then
      var partial := rest[0].(shares := rest[0].shares - shares);
      Sweep([Execution(rest[0].ref, shares)], [], [partial] + rest[1..], 0)
    else
      var s := SweepFrom(bid, rest[1..], limit, shares - rest[0].shares);
      Sweep([Execution(rest[0].ref, rest[0].shares)] + s.executions, [rest[0].ref] + s.removed, s.rest, s.left)
  }

  function TotalShares(rest: seq<Order>): (n: nat) {
    if rest == [] then 0 else rest[0].shares + TotalShares(rest[1..])
  }

  function ExecutedShares(es: seq<Execution>): (n: nat) {
    if es == [] then 0 else es[0].shares + ExecutedShares(es[1..])
  }

  function Min(a: int, b: int): (m: int) { if a <= b then a else b }

  function Max(a: int, b: int): (m: int) { if a >= b then a else b }

  /**
    Price-time priority, stated without a loop: the shares order i of the list must receive
    are whatever the orders ahead of it leave over, capped by its own size, and nothing if it
    does not cross.
   */
  function Allotment(bid: bool, rest: seq<Order>, limit: uint32, shares: uint32, i: nat): (n: nat)
    requires i < |rest|
  {
    if (if bid then rest[i].price >= limit else rest[i].price <= limit)
    then Min(rest[i].shares, Max(0, shares - TotalShares(rest[..i])))
    else 0
  }

  /** Shares executed against order i of the list, as the execution records tell it. */
  function Received(s: Sweep, i: nat): (n: nat) {
    if i < |s.executions| then s.executions[i].shares else 0
  }

  lemma TotalSharesTail(rest: seq<Order>, i: nat)
    requires 0 < i <= |rest|
    ensures TotalShares(rest[..i]) == rest[0].shares + TotalShares(rest[1..][..i - 1])
  {
    assert rest[..i][1..] == rest[1..][..i - 1];
  }

  /** The sweep gives every order exactly its price-time allotment. */
  lemma {:induction false} SweepAllots(bid: bool, rest: seq<Order>, limit: uint32, shares: uint32, i: nat)
    requires Ranked(bid, rest) && Funded(rest) && i < |rest|
    ensures Received(SweepFrom(bid, rest, limit, shares), i) == Allotment(bid, rest, limit, shares, i)
    decreases |rest|
  {
    assert Behind(bid, rest, 0, i);
    RankedTail(bid, rest);
    if shares == 0 || !Crosses(bid, rest[0].price, limit) || shares < rest[0].shares {
      if i > 0 { TotalSharesTail(rest, i); }
    } else if i > 0 {
      SweepAllots(bid, rest[1..], limit, shares - rest[0].shares, i - 1);
      TotalSharesTail(rest, i);
    }
  }

  /** Execution i is against order i of the list, whose price meets the limit. */
  ghost predicate TakenAt(bid: bool, rest: seq<Order>, limit: uint32, s: Sweep, i: nat)
    requires i < |s.executions| && i < |rest|
  {
    s.executions[i].ref == rest[i].ref && if bid then rest[i].price >= limit else rest[i].price <= limit
  }

  /** Order i is filled completely and removed. */
  ghost predicate FilledAt(rest: seq<Order>, s: Sweep, i: nat)
    requires i < |s.removed| && i < |s.executions| && i < |rest|
  {
    s.removed[i] == rest[i].ref && s.executions[i].shares == rest[i].shares
  }

  /**
    The execution records are the front of the priority list in order, none past the limit; every
    order but possibly the last is filled completely, and the removed references are exactly the
    completely filled ones. What remains is the untouched tail, possibly behind one order
    with fewer shares.
   */
  ghost predicate TakesFront(bid: bool, rest: seq<Order>, limit: uint32, s: Sweep) {
    var n := |s.removed|;
    && n <= |rest| && n <= |s.executions| <= n + 1 && |s.executions| <= |rest|
    && (forall i {:trigger TakenAt(bid, rest, limit, s, i)} | 0 <= i < |s.executions| ::
          TakenAt(bid, rest, limit, s, i))
    && (forall i {:trigger FilledAt(rest, s, i)} | 0 <= i < n :: FilledAt(rest, s, i))
    && (|s.executions| == n ==> s.rest == rest[n..])
    && (|s.executions| == n + 1 ==>
          && s.left == 0
          && 0 < s.executions[n].shares < rest[n].shares
          && s.rest == [rest[n].(shares := rest[n].shares - s.executions[n].shares)] + rest[n + 1..])
  }

  lemma {:induction false} SweepTakesFront(bid: bool, rest: seq<Order>, limit: uint32, shares: uint32)
    requires Funded(rest)
    ensures TakesFront(bid, rest, limit, SweepFrom(bid, rest, limit, shares))
    decreases |rest|
  {
    if shares > 0 && rest != [] && Crosses(bid, rest[0].price, limit) && shares >= rest[0].shares {
      var t := SweepFrom(bid, rest[1..], limit, shares - rest[0].shares);
      SweepTakesFront(bid, rest[1..], limit, shares - rest[0].shares);
      TakesFrontCons(bid, rest, limit, t);
    }
  }

  lemma TakesFrontCons(bid: bool, rest: seq<Order>, limit: uint32, t: Sweep)
    requires rest != [] && Crosses(bid, rest[0].price, limit)
    requires TakesFront(bid, rest[1..], limit, t)
    ensures TakesFront(bid, rest, limit,
              Sweep([Execution(rest[0].ref, rest[0].shares)] + t.executions, [rest[0].ref] + t.removed, t.rest, t.left))
  {
    var n := |t.removed|;
    var s := Sweep([Execution(rest[0].ref, rest[0].shares)] + t.executions, [rest[0].ref] + t.removed, t.rest, t.left);
    forall i {:trigger TakenAt(bid, rest, limit, s, i)} | 0 <= i < |s.executions|
      ensures TakenAt(bid, rest, limit, s, i)
    {
      assert i > 0 ==> TakenAt(bid, rest[1..], limit, t, i - 1);
    }
    forall i {:trigger FilledAt(rest, s, i)} | 0 <= i < |s.removed| ensures FilledAt(rest, s, i) {
      assert i > 0 ==> FilledAt(rest[1..], t, i - 1);
    }
    assert rest[1..][n..] == rest[n + 1..];
    if |t.executions| == n + 1 {
      assert rest[1..][n + 1..] == rest[n + 2..];
    }
  }

  /** No execution is past the limit: resting bids are at or above it, resting asks at or below. */
  lemma SweepWithinLimit(bid: bool, rest: seq<Order>, limit: uint32, shares: uint32, i: nat)
    requires Funded(rest) && i < |SweepFrom(bid, rest, limit, shares).executions|
    ensures i < |rest| && SweepFrom(bid, rest, limit, shares).executions[i].ref == rest[i].ref
    ensures if bid then rest[i].price >= limit else rest[i].price <= limit
  {
    SweepTakesFront(bid, rest, limit, shares);
    assert TakenAt(bid, rest, limit, SweepFrom(bid, rest, limit, shares), i);
  }

  /** Incoming shares are executed or left over, and nothing crossing stays beside a leftover. */
  lemma {:induction false} SweepConserves(bid: bool, rest: seq<Order>, limit: uint32, shares: uint32)
    ensures var s := SweepFrom(bid, rest, limit, shares);
            && ExecutedShares(s.executions) + s.left == shares
            && TotalShares(s.rest) + ExecutedShares(s.executions) == TotalShares(rest)
            && (s.left > 0 ==> s.rest == [] || if bid then s.rest[0].price < limit else s.rest[0].price > limit)
    decreases |rest|
  {
    if shares == 0 || rest == [] || !Crosses(bid, rest[0].price, limit) {
    } else if shares < rest[0].shares {
      assert ([Execution(rest[0].ref, shares)])[1..] == [];
      assert ([rest[0].(shares := rest[0].shares - shares)] + rest[1..])[1..] == rest[1..];
    } else {
      var s := SweepFrom(bid, rest[1..], limit, shares - rest[0].shares);
      SweepConserves(bid, rest[1..], limit, shares - rest[0].shares);
      assert ([Execution(rest[0].ref, rest[0].shares)] + s.executions)[1..] == s.executions;
    }
  }

  // ---- Resting ----

  /** How many orders are at least as well priced as `price` in a ranked list. */
  function InsertPos(bid: bool, rest: seq<Order>, price: uint32): (k: nat)
    ensures k <= |rest|
  {
    if rest == [] || Better(bid, price, rest[0].price) then 0 else 1 + InsertPos(bid, rest[1..], price)
  }

  function InsertAt<T>(s: seq<T>, k: nat, x: T): (r: seq<T>)
    requires k <= |s|
    ensures |r| == |s| + 1
    ensures forall i {:trigger r[i]} | 0 <= i < |r| :: r[i] == if i < k then s[i] else if i == k then x else s[i - 1]
  {
    seq(|s| + 1, i requires 0 <= i <= |s| => if i < k then s[i] else if i == k then x else s[i - 1])
  }

  function RemoveAt<T>(s: seq<T>, k: nat): (r: seq<T>)
    requires k < |s|
    ensures |r| == |s| - 1
    ensures forall i {:trigger r[i]} | 0 <= i < |r| :: r[i] == if i < k then s[i] else s[i + 1]
  {
    seq(|s| - 1, i requires 0 <= i < |s| - 1 => if i < k then s[i] else s[i + 1])
  }

  function Rest(bid: bool, rest: seq<Order>, o: Order): (r: seq<Order>) {
    InsertAt(rest, InsertPos(bid, rest, o.price), o)
  }

  /** In a ranked list the insertion point separates "at least as good" from "worse": higher bids and lower
      asks are better. */
  lemma {:induction false} InsertPosSplits(bid: bool, rest: seq<Order>, price: uint32)
    requires Ranked(bid, rest)
    ensures var k := InsertPos(bid, rest, price);
            && (forall i | 0 <= i < k :: if bid then rest[i].price >= price else rest[i].price <= price)
            && (forall i | k <= i < |rest| :: if bid then rest[i].price < price else rest[i].price > price)
  {
    if rest != [] {
      RankedTail(bid, rest);
      if !Better(bid, price, rest[0].price) {
        InsertPosSplits(bid, rest[1..], price);
      } else {
        forall i | 0 <= i < |rest| ensures Better(bid, price, rest[i].price) {
          assert Behind(bid, rest, 0, i);
        }
      }
    }
  }

  lemma RestRanked(bid: bool, rest: seq<Order>, o: Order)
    requires Ranked(bid, rest)
    ensures Ranked(bid, Rest(bid, rest, o))
  {
    InsertPosSplits(bid, rest, o.price);
    var k, r := InsertPos(bid, rest, o.price), Rest(bid, rest, o);
    forall i: nat, j: nat | i <= j < |r| ensures Behind(bid, r, i, j) {
      if i != k && j != k {
        assert Behind(bid, rest, if i < k then i else i - 1, if j < k then j else j - 1);
      }
    }
  }
}
