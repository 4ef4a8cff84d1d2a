/**
  What one message does, said in plain comparisons, with the side letters and side numbers written
  out: bids of book b are side 2 * b, asks are side 2 * b + 1, 'B' buys and 'S' sells.
 */
module MessageLaws {
  import opened Words
  import opened BookSpec
  import opened EngineSpec

  // ---- An order joins a list ----

  /** The order stands behind everything at least as well priced and ahead of everything worse. */
  ghost predicate JoinsAt(before: seq<Order>, after: seq<Order>, o: Order, buy: bool, k: nat) {
    && k <= |before| && after == before[..k] + [o] + before[k..]
    && (forall i | 0 <= i < k :: if buy then before[i].price >= o.price else before[i].price <= o.price)
    && (forall i | k <= i < |before| :: if buy then before[i].price < o.price else before[i].price > o.price)
  }

  ghost predicate Joins(before: seq<Order>, after: seq<Order>, o: Order, buy: bool) {
    exists k :: JoinsAt(before, after, o, buy, k)
  }

  lemma RestJoins(bid: bool, rest: seq<Order>, o: Order)
    requires Ranked(bid, rest)
    ensures Joins(rest, Rest(bid, rest, o), o, bid)
  {
    var k := InsertPos(bid, rest, o.price);
    InsertPosSplits(bid, rest, o.price);
    assert Rest(bid, rest, o) == rest[..k] + [o] + rest[k..];
    assert JoinsAt(rest, Rest(bid, rest, o), o, bid, k);
  }

  // ---- Adds ----

  /** An order of `shares` at `limit` has been matched against `facing`: from the front, within the limit,
      complete but for the last, and as far as it goes. */
  ghost predicate Matches(facing: seq<Order>, buy: bool, limit: uint32, shares: uint32, s: Sweep) {
    && TakesFront(!buy, facing, limit, s)
    && ExecutedShares(s.executions) + s.left == shares
    && (s.left > 0 ==> s.rest == [] || if buy then s.rest[0].price > limit else s.rest[0].price < limit)
  }

  lemma SweepMatches(facing: seq<Order>, buy: bool, limit: uint32, shares: uint32)
    requires Funded(facing)
    ensures Matches(facing, buy, limit, shares, SweepFrom(!buy, facing, limit, shares))
  {
    SweepTakesFront(!buy, facing, limit, shares);
    SweepConserves(!buy, facing, limit, shares);
  }

  /** The order meets list `facing` and what is left of it joins list `own`; no other list changes. */
  ghost predicate Trades(st: EngineState, st': EngineState, s: Sweep, o: Order, buy: bool, own: nat, facing: nat)
    requires own < |st.sides| == |st'.sides| && facing < |st.sides|
  {
    && Matches(st.sides[facing], buy, o.price, o.shares, s) && st'.sides[facing] == s.rest
    && (if s.left == 0 then st'.sides[own] == st.sides[own]
        else Joins(st.sides[own], st'.sides[own], Order(o.ref, s.left, o.price, o.side), buy))
    && (forall k | 0 <= k < |st.sides| && k != own && k != facing :: st'.sides[k] == st.sides[k])
  }

  /** Two lists updated as a trade asks. */
  lemma ListsTrade(st: EngineState, st': EngineState, o: Order, buy: bool, own: nat, facing: nat)
    requires own < |st.sides| && facing < |st.sides| && own != facing
    requires Ranked(buy, st.sides[own]) && Funded(st.sides[facing])
    requires var s := SweepFrom(!buy, st.sides[facing], o.price, o.shares);
             var sides := st.sides[facing := s.rest];
             st'.sides == if s.left == 0 then sides
                          else sides[own := Rest(buy, st.sides[own], Order(o.ref, s.left, o.price, o.side))]
    ensures Trades(st, st', SweepFrom(!buy, st.sides[facing], o.price, o.shares), o, buy, own, facing)
  {
    var s := SweepFrom(!buy, st.sides[facing], o.price, o.shares);
    SweepMatches(st.sides[facing], buy, o.price, o.shares);
    RestJoins(buy, st.sides[own], Order(o.ref, s.left, o.price, o.side));
  }

  lemma SoundLists(st: EngineState, b: nat)
    requires Sound(st) && b < BOOKS
    ensures Ranked(true, st.sides[2 * b]) && Funded(st.sides[2 * b])
    ensures Ranked(false, st.sides[2 * b + 1]) && Funded(st.sides[2 * b + 1])
  {
    assert SideSound(st, 2 * b) && SideSound(st, 2 * b + 1);
    assert IsBid(2 * b) && !IsBid(2 * b + 1);
  }

  /** 'B' takes from the asks of its book and can only join the bids. */
  lemma BuyTrades(st: EngineState, locate: uint16, o: Order)
    requires Sound(st) && o.side == 'B'
    ensures var s := SweepOf(st, Add(locate, o));
            s.Some? && Trades(st, Step(st, Add(locate, o)), s.value, o, true, 2 * locate, 2 * locate + 1)
  {
    SoundLists(st, locate);
    ListsTrade(st, Step(st, Add(locate, o)), o, true, 2 * locate, 2 * locate + 1);
  }

  /** 'S' takes from the bids of its book and can only join the asks. */
  lemma SellTrades(st: EngineState, locate: uint16, o: Order)
    requires Sound(st) && o.side == 'S'
    ensures var s := SweepOf(st, Add(locate, o));
            s.Some? && Trades(st, Step(st, Add(locate, o)), s.value, o, false, 2 * locate + 1, 2 * locate)
  {
    SoundLists(st, locate);
    ListsTrade(st, Step(st, Add(locate, o)), o, false, 2 * locate + 1, 2 * locate);
  }

  /** Any other letter changes nothing. */
  lemma OtherLetters(st: EngineState, locate: uint16, o: Order)
    requires |st.sides| == SIDES && o.side != 'B' && o.side != 'S'
    ensures Step(st, Add(locate, o)) == st && SweepOf(st, Add(locate, o)).None?
  {
  }

  /** An add is accepted exactly if nothing of it is left to rest, or its reference is not all ones and not
      live after the sweep, and the order map of 8388608 slots keeps a free one. */
  lemma AddAccepted(st: EngineState, locate: uint16, o: Order)
    requires |st.sides| == SIDES && (o.side == 'B' || o.side == 'S')
    ensures var s := SweepOf(st, Add(locate, o));
            && s.Some?
            && var live := st.index.Keys - RefSet(s.value.removed);
               Accepts(st, Add(locate, o)) <==>
               s.value.left == 0
               || (o.ref != 0xFFFF_FFFF_FFFF_FFFF && o.ref !in live && |live| + 1 < 8388608)
  {
    var s := SweepFor(st, locate, o);
    assert (st.index - RefSet(s.removed)).Keys == st.index.Keys - RefSet(s.removed);
  }

  // ---- Deletes, reductions and replaces ----

  /** A delete takes exactly its order out; the orders around it keep their places. */
  lemma DeleteTakesOut(st: EngineState, ref: uint64)
    requires |st.sides| == SIDES && Knows(st, ref)
    ensures var k := st.index[ref];
            var i := Position(st.sides[k], ref);
            var st' := Step(st, Delete(ref));
            && st.sides[k][i].ref == ref && st'.sides[k] == st.sides[k][..i] + st.sides[k][i + 1..]
            && (forall j | 0 <= j < SIDES && j != k :: st'.sides[j] == st.sides[j])
            && st'.index == st.index - {ref}
  {
    var k := st.index[ref];
    var i := Position(st.sides[k], ref);
    assert RemoveAt(st.sides[k], i) == st.sides[k][..i] + st.sides[k][i + 1..];
  }

  /** A reduction by all shares or more is a delete. */
  lemma FullReduction(st: EngineState, ref: uint64, shares: uint32)
    requires |st.sides| == SIDES && Knows(st, ref) && shares >= Lookup(st, ref).shares
    ensures Step(st, Reduce(ref, shares)) == Step(st, Delete(ref))
  {
  }

  /** A reference that nobody knows changes nothing. */
  lemma UnknownRefs(st: EngineState, ref: uint64, m: Message)
    requires |st.sides| == SIDES && !Knows(st, ref)
    requires m == Delete(ref) || (m.Reduce? && m.ref == ref) || (m.Replace? && m.original == ref)
    ensures Step(st, m) == st && SweepOf(st, m).None?
  {
  }

  /** A replace deletes the original and then adds, to the same book and on the same side, an order with the
      new reference, the new shares and the new price. */
  lemma ReplaceIsDeleteAdd(st: EngineState, original: uint64, ref: uint64, shares: uint32, price: uint32)
    requires Sound(st) && Knows(st, original)
    ensures var m := Replace(original, ref, shares, price);
            var st1 := Step(st, Delete(original));
            var add := Add(st.index[original] / 2, Order(ref, shares, price, Lookup(st, original).side));
            Step(st, m) == Step(st1, add) && SweepOf(st, m) == SweepOf(st1, add)
  {
    assert SideSound(st, st.index[original]);
  }

  // ---- No execution past a limit ----

  /** The order a message brings to a book, and the book. */
  function Incoming(st: EngineState, m: Message): (r: Option<(uint16, Order)>)
    requires |st.sides| == SIDES
  {
    match m
    case Add(locate, o) => if o.side == 'B' || o.side == 'S' then Some((locate, o)) else None
    case Replace(original, ref, shares, price) =>
      if Knows(st, original)
      then Some((st.index[original] / 2, Order(ref, shares, price, Lookup(st, original).side)))
      else None
    case _ => None
  }

  /** Execution i is against order i of the facing side, for no more than it has, at a price within the limit. */
  ghost predicate FairAt(facing: seq<Order>, o: Order, es: seq<Execution>, i: nat)
    requires i < |es|
  {
    && i < |facing| && es[i].ref == facing[i].ref && es[i].shares <= facing[i].shares
    && if o.side == 'B' then facing[i].price <= o.price else facing[i].price >= o.price
  }

  ghost predicate Fair(facing: seq<Order>, o: Order, es: seq<Execution>) {
    forall i {:trigger FairAt(facing, o, es, i)} | 0 <= i < |es| :: FairAt(facing, o, es, i)
  }

  /** A buy is executed against the asks of its book at or below its limit, a sell against the bids at or
      above it, best first; a message that brings no order executes nothing. */
  ghost predicate ExecutesFairly(st: EngineState, m: Message, es: seq<Execution>)
    requires |st.sides| == SIDES
  {
    match Incoming(st, m)
    case None => es == []
    case Some((locate, o)) => Fair(st.sides[2 * locate + if o.side == 'B' then 1 else 0], o, es)
  }

  /** The executions a message causes. */
  function Executions(st: EngineState, m: Message): (es: seq<Execution>)
    requires |st.sides| == SIDES
  {
    match SweepOf(st, m)
    case None => []
    case Some(s) => s.executions
  }

  lemma MatchesFair(facing: seq<Order>, buy: bool, o: Order, s: Sweep)
    requires Matches(facing, buy, o.price, o.shares, s) && buy == (o.side == 'B')
    ensures Fair(facing, o, s.executions)
  {
    forall i {:trigger FairAt(facing, o, s.executions, i)} | 0 <= i < |s.executions|
      ensures FairAt(facing, o, s.executions, i)
    {
      assert TakenAt(!buy, facing, o.price, s, i);
      assert i < |s.removed| ==> FilledAt(facing, s, i);
    }
  }

  lemma AddFair(st: EngineState, locate: uint16, o: Order)
    requires Sound(st) && (o.side == 'B' || o.side == 'S')
    ensures var s := SweepOf(st, Add(locate, o));
            s.Some? && Fair(st.sides[2 * locate + if o.side == 'B' then 1 else 0], o, s.value.executions)
  {
    var s := SweepFor(st, locate, o);
    if o.side == 'B' {
      BuyTrades(st, locate, o);
      MatchesFair(st.sides[2 * locate + 1], true, o, s);
    } else {
      SellTrades(st, locate, o);
      MatchesFair(st.sides[2 * locate], false, o, s);
    }
  }

  /** A resting order of side k has the letter of side k. */
  lemma LetterOf(st: EngineState, ref: uint64)
    requires Sound(st) && Knows(st, ref)
    ensures st.index[ref] < SIDES && Lookup(st, ref).side == if st.index[ref] % 2 == 0 then 'B' else 'S'
  {
    assert SideSound(st, st.index[ref]);
  }

  lemma ReplaceFair(st: EngineState, m: Message)
    requires Sound(st) && m.Replace? && Knows(st, m.original)
    ensures ExecutesFairly(st, m, Executions(st, m))
  {
    var k, o := st.index[m.original], Order(m.ref, m.shares, m.price, Lookup(st, m.original).side);
    LetterOf(st, m.original);
    ReplaceIsDeleteAdd(st, m.original, m.ref, m.shares, m.price);
    var st1 := Step(st, Delete(m.original));
    StepSound(st, Delete(m.original));
    DeleteTakesOut(st, m.original);
    AddFair(st1, k / 2, o);
    assert 2 * (k / 2) + (if o.side == 'B' then 1 else 0) != k;
  }

  /** Whatever the message, its executions are fair. */
  lemma StepExecutesFairly(st: EngineState, m: Message)
    requires Sound(st)
    ensures ExecutesFairly(st, m, Executions(st, m))
  {
    match m
    case Add(locate, o) =>
      if o.side == 'B' || o.side == 'S' { AddFair(st, locate, o); } else { OtherLetters(st, locate, o); }
    case Replace(original, _, _, _) =>
      if Knows(st, original) { ReplaceFair(st, m); }
    case _ =>
  }

  /** And so at every message of every admissible stream. */
  lemma RunExecutesFairly(ms: seq<Message>, i: nat)
    requires Admissible(Initial(), ms) && i < |ms|
    ensures var st := Run(Initial(), ms[..i]);
            ExecutesFairly(st, ms[i], Executions(st, ms[i]))
  {
    InitialSound();
    AdmissiblePrefix(Initial(), ms, i);
    RunSound(Initial(), ms[..i]);
    StepExecutesFairly(Run(Initial(), ms[..i]), ms[i]);
  }
}
