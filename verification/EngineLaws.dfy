/**
  Laws of the engine over whole runs: where shares go, which books a message can touch,
  and what an observer of one book may rely on.
 */
module EngineLaws {
  import opened Words
  import opened BookSpec
  import opened EngineSpec

  // ---- Conservation of shares ----

  function RestingIn(sides: seq<seq<Order>>): (n: nat) {
    if sides == [] then 0 else TotalShares(sides[0]) + RestingIn(sides[1..])
  }

  lemma {:induction false} RestingUpdate(sides: seq<seq<Order>>, k: nat, rest: seq<Order>)
    requires k < |sides|
    ensures RestingIn(sides[k := rest]) == RestingIn(sides) - TotalShares(sides[k]) + TotalShares(rest)
  {
    if k == 0 {
      assert sides[0 := rest][1..] == sides[1..];
    } else {
      RestingUpdate(sides[1..], k - 1, rest);
      assert sides[k := rest][1..] == sides[1..][k - 1 := rest];
    }
  }

  lemma {:induction false} TotalInsert(rest: seq<Order>, k: nat, o: Order)
    requires k <= |rest|
    ensures TotalShares(InsertAt(rest, k, o)) == TotalShares(rest) + o.shares
  {
    if k == 0 {
      assert InsertAt(rest, 0, o)[1..] == rest;
    } else {
      TotalInsert(rest[1..], k - 1, o);
      assert InsertAt(rest, k, o)[1..] == InsertAt(rest[1..], k - 1, o);
    }
  }

  lemma TotalRemove(rest: seq<Order>, k: nat)
    requires k < |rest|
    ensures TotalShares(RemoveAt(rest, k)) == TotalShares(rest) - rest[k].shares
  {
    TotalInsert(RemoveAt(rest, k), k, rest[k]);
    assert InsertAt(RemoveAt(rest, k), k, rest[k]) == rest;
  }

  lemma TotalReduce(rest: seq<Order>, k: nat, shares: uint32)
    requires k < |rest|
    ensures TotalShares(rest[k := rest[k].(shares := shares)]) == TotalShares(rest) - rest[k].shares + shares
  {
    TotalRemove(rest, k);
    TotalInsert(RemoveAt(rest, k), k, rest[k].(shares := shares));
    assert InsertAt(RemoveAt(rest, k), k, rest[k].(shares := shares)) == rest[k := rest[k].(shares := shares)];
  }

  /** Shares a message brings in: those of an add, and those of the order a replace stands for. */
  function Submitted(st: EngineState, m: Message): (n: nat)
    requires |st.sides| == SIDES
  {
    match m
    case Add(_, o) => if ValidSide(o.side) then o.shares else 0
    case Replace(original, _, shares, _) => if Knows(st, original) then shares else 0
    case _ => 0
  }

  /** Shares matched by a message; each match takes them from both orders. */
  function MatchedBy(st: EngineState, m: Message): (n: nat)
    requires |st.sides| == SIDES
  {
    match SweepOf(st, m)
    case None => 0
    case Some(s) => ExecutedShares(s.executions)
  }

  /** Shares taken out by a delete, a reduction (capped by what is there) or a replaced original. */
  function Withdrawn(st: EngineState, m: Message): (n: nat) {
    match m
    case Delete(ref) => if Knows(st, ref) then Lookup(st, ref).shares else 0
    case Reduce(ref, shares) => if Knows(st, ref) then Min(shares, Lookup(st, ref).shares) else 0
    case Replace(original, _, _, _) => if Knows(st, original) then Lookup(st, original).shares else 0
    case _ => 0
  }

  lemma PlaceConserves(st: EngineState, locate: uint16, o: Order)
    requires |st.sides| == SIDES
    ensures RestingIn(Placed(st, locate, o).sides) + 2 * ExecutedShares(SweepFor(st, locate, o).executions)
         == RestingIn(st.sides) + o.shares
  {
    var bid := o.side == BUY;
    var own, opp := SideNo(locate, bid), SideNo(locate, !bid);
    var s := SweepFor(st, locate, o);
    SweepConserves(!bid, st.sides[opp], o.price, o.shares);
    RestingUpdate(st.sides, opp, s.rest);
    var sides := st.sides[opp := s.rest];
    if s.left > 0 {
      TotalInsert(sides[own], InsertPos(bid, sides[own], o.price), o.(shares := s.left));
      RestingUpdate(sides, own, Rest(bid, sides[own], o.(shares := s.left)));
    }
  }

  lemma WithdrawConserves(st: EngineState, ref: uint64)
    requires Knows(st, ref)
    ensures RestingIn(Withdraw(st, ref).sides) == RestingIn(st.sides) - Lookup(st, ref).shares
  {
    var k := st.index[ref];
    TotalRemove(st.sides[k], Position(st.sides[k], ref));
    RestingUpdate(st.sides, k, RemoveAt(st.sides[k], Position(st.sides[k], ref)));
  }

  lemma SetSharesConserves(st: EngineState, ref: uint64, shares: uint32)
    requires Knows(st, ref)
    ensures RestingIn(SetShares(st, ref, shares).sides) == RestingIn(st.sides) - Lookup(st, ref).shares + shares
  {
    var k := st.index[ref];
    var i := Position(st.sides[k], ref);
    TotalReduce(st.sides[k], i, shares);
    RestingUpdate(st.sides, k, st.sides[k][i := st.sides[k][i].(shares := shares)]);
  }

  /** One message: shares resting before plus shares submitted are matched twice, withdrawn, or rest. */
  lemma StepConserves(st: EngineState, m: Message)
    requires |st.sides| == SIDES
    ensures RestingIn(Step(st, m).sides) + 2 * MatchedBy(st, m) + Withdrawn(st, m)
         == RestingIn(st.sides) + Submitted(st, m)
  {
    match m
    case Add(locate, o) =>
      if ValidSide(o.side) { PlaceConserves(st, locate, o); }
    case Delete(ref) =>
      if Knows(st, ref) { WithdrawConserves(st, ref); }
    case Reduce(ref, shares) =>
      if Knows(st, ref) {
        WithdrawConserves(st, ref);
        if shares < Lookup(st, ref).shares { SetSharesConserves(st, ref, Lookup(st, ref).shares - shares); }
      }
    case Replace(original, _, _, _) =>
      if Knows(st, original) {
        var p := Replaced(st, m);
        WithdrawConserves(st, original);
        PlaceConserves(p.0, p.1, p.2);
      }
    case Other =>
  }

  /** Shares submitted, matched and withdrawn over a run. */
  datatype Ledger = Ledger(submitted: nat, matched: nat, withdrawn: nat)

  function LedgerOf(st: EngineState, ms: seq<Message>): (l: Ledger)
    requires |st.sides| == SIDES
  {
    if ms == [] then Ledger(0, 0, 0)
    else
      var l, before, m := LedgerOf(st, ms[..|ms| - 1]), Run(st, ms[..|ms| - 1]), ms[|ms| - 1];
      Ledger(l.submitted + Submitted(before, m), l.matched + MatchedBy(before, m), l.withdrawn + Withdrawn(before, m))
  }

  /** Conservation over whole runs: what was submitted is matched (twice), withdrawn, or still rests. */
  lemma {:induction false} RunConserves(ms: seq<Message>)
    ensures var l := LedgerOf(Initial(), ms);
            l.submitted == 2 * l.matched + l.withdrawn + RestingIn(Run(Initial(), ms).sides)
  {
    if ms == [] {
      NothingRests(Initial().sides);
    } else {
      RunConserves(ms[..|ms| - 1]);
      StepConserves(Run(Initial(), ms[..|ms| - 1]), ms[|ms| - 1]);
    }
  }

  lemma {:induction false} NothingRests(sides: seq<seq<Order>>)
    requires forall k | 0 <= k < |sides| :: sides[k] == []
    ensures RestingIn(sides) == 0
  {
    if sides != [] { NothingRests(sides[1..]); }
  }

  // ---- Isolation of books ----

  /** The book a message is for, if it is for one. */
  function BookOf(st: EngineState, m: Message): (b: Option<nat>) {
    match m
    case Add(locate, _) => Some(locate)
    case Delete(ref) => if Knows(st, ref) then Some(st.index[ref] / 2) else None
    case Reduce(ref, _) => if Knows(st, ref) then Some(st.index[ref] / 2) else None
    case Replace(original, _, _, _) => if Knows(st, original) then Some(st.index[original] / 2) else None
    case Other => None
  }

  /** Contents and FIFO order of every other book are unchanged. */
  lemma StepIsolated(st: EngineState, m: Message, k: nat)
    requires |st.sides| == SIDES && k < SIDES && BookOf(st, m) != Some(k / 2)
    ensures Step(st, m).sides[k] == st.sides[k]
  {
  }

  /** Without its own messages, a book never changes over a whole run. */
  lemma {:induction false} RunIsolated(st: EngineState, ms: seq<Message>, k: nat)
    requires |st.sides| == SIDES && k < SIDES
    requires forall i | 0 <= i < |ms| :: BookOf(Run(st, ms[..i]), ms[i]) != Some(k / 2)
    ensures Run(st, ms).sides[k] == st.sides[k]
  {
    if ms != [] {
      var n := |ms| - 1;
      forall i | 0 <= i < n ensures BookOf(Run(st, ms[..n][..i]), ms[..n][i]) != Some(k / 2) {
        assert ms[..n][..i] == ms[..i];
      }
      RunIsolated(st, ms[..n], k);
      StepIsolated(Run(st, ms[..n]), ms[n], k);
    }
  }

  /** A partial reduction changes one share count and no position, on one side only. */
  lemma PartialKeepsQueue(st: EngineState, ref: uint64, shares: uint32, k: nat, i: nat)
    requires Sound(st) && Knows(st, ref) && shares < Lookup(st, ref).shares
    requires k < SIDES && i < |st.sides[k]|
    ensures var st' := Step(st, Reduce(ref, shares));
            && st'.index == st.index
            && |st'.sides[k]| == |st.sides[k]|
            && st'.sides[k][i] == if st.sides[k][i].ref == ref
                                  then st.sides[k][i].(shares := Lookup(st, ref).shares - shares)
                                  else st.sides[k][i]
  {
    assert SideSound(st, k) && SideSound(st, st.index[ref]);
    assert Position(st.sides[k], st.sides[k][i].ref) == i;
  }

  // ---- What an observer of one book sees ----

  lemma SoundUncrossed(st: EngineState, b: nat, i: nat, j: nat)
    requires Sound(st) && b < BOOKS && i < |st.sides[2 * b]| && j < |st.sides[2 * b + 1]|
    ensures st.sides[2 * b][i].price < st.sides[2 * b + 1][j].price
  {
    var bids, asks := st.sides[2 * b], st.sides[2 * b + 1];
    assert BookUncrossed(st, b);
    assert SideSound(st, 2 * b) && SideSound(st, 2 * b + 1);
    assert IsBid(2 * b) && !IsBid(2 * b + 1);
    assert Behind(true, bids, 0, i) && Behind(false, asks, 0, j);
  }

  /** After any admissible stream, no bid reaches any ask of its book. */
  lemma NeverCrossed(ms: seq<Message>, b: nat, i: nat, j: nat)
    requires Admissible(Initial(), ms) && b < BOOKS
    requires var st := Run(Initial(), ms); i < |st.sides[2 * b]| && j < |st.sides[2 * b + 1]|
    ensures var st := Run(Initial(), ms);
            st.sides[2 * b][i].price < st.sides[2 * b + 1][j].price
  {
    InitialSound();
    RunSound(Initial(), ms);
    SoundUncrossed(Run(Initial(), ms), b, i, j);
  }

  /** And every resting order of every side has shares, is on the side it says, and is found by its reference. */
  lemma AlwaysFunded(ms: seq<Message>, k: nat, i: nat)
    requires Admissible(Initial(), ms) && k < SIDES && i < |Run(Initial(), ms).sides[k]|
    ensures var st := Run(Initial(), ms);
            var o := st.sides[k][i];
            && o.shares > 0 && o.side == (if k % 2 == 0 then 'B' else 'S')
            && Knows(st, o.ref) && st.index[o.ref] == k && Lookup(st, o.ref) == o
  {
    InitialSound();
    RunSound(Initial(), ms);
    FoundByRef(Run(Initial(), ms), k, i);
  }

  lemma FoundByRef(st: EngineState, k: nat, i: nat)
    requires Sound(st) && k < SIDES && i < |st.sides[k]|
    ensures var o := st.sides[k][i];
            && o.shares > 0 && o.side == (if k % 2 == 0 then 'B' else 'S')
            && Knows(st, o.ref) && st.index[o.ref] == k && Lookup(st, o.ref) == o
  {
    assert SideSound(st, k);
    assert Position(st.sides[k], st.sides[k][i].ref) == i;
  }

  // ---- What the engine asks of a feed is the least it can ask ----

  /** A reference that rests twice cannot be found by one index. */
  lemma RestsTwice(st: EngineState, k: nat, o: Order)
    requires Sound(st) && k < SIDES && o.ref in st.index
    ensures !Sound(EngineState(st.sides[k := Rest(IsBid(k), st.sides[k], o)], st.index[o.ref := k]))
  {
    var st' := EngineState(st.sides[k := Rest(IsBid(k), st.sides[k], o)], st.index[o.ref := k]);
    var j := st.index[o.ref];
    assert KnownRef(st, o.ref) && SideSound(st, j);
    var p, q := Position(st.sides[j], o.ref), InsertPos(IsBid(k), st.sides[k], o.price);
    if j == k {
      var rest := st'.sides[k];
      var p' := if p < q then p else p + 1;
      assert rest[q] == o && rest[p'].ref == o.ref && p' != q;
      assert Position(rest, rest[q].ref) == Position(rest, rest[p'].ref);
      assert !SideSound(st', k);
    } else {
      assert st'.sides[j][p].ref == o.ref;
      assert !SideSound(st', j);
    }
  }

  /** If a placed order leaves the state sound, it was acceptable. */
  lemma PlacedNeeds(st: EngineState, locate: uint16, o: Order)
    requires Sound(st) && ValidSide(o.side) && Sound(Placed(st, locate, o))
    ensures CanPlace(st, locate, o)
  {
    var bid := o.side == BUY;
    var own, opp := SideNo(locate, bid), SideNo(locate, !bid);
    var s := SweepFor(st, locate, o);
    MatchedSound(st, opp, o.price, o.shares);
    var mid := EngineState(st.sides[opp := s.rest], st.index - RefSet(s.removed));
    if s.left > 0 {
      assert KnownRef(Placed(st, locate, o), o.ref);
      if o.ref in mid.index {
        RestsTwice(mid, own, o.(shares := s.left));
      } else {
        assert |mid.index[o.ref := own]| == |mid.index| + 1;
      }
    }
  }

  /** A message leads from a sound state to a sound one exactly when it is accepted. */
  lemma AcceptsExact(st: EngineState, m: Message)
    requires Sound(st)
    ensures Sound(Step(st, m)) <==> Accepts(st, m)
  {
    if Accepts(st, m) {
      StepSound(st, m);
    } else if Sound(Step(st, m)) {
      match m
      case Add(locate, o) => PlacedNeeds(st, locate, o);
      case Replace(original, _, _, _) =>
        var p := Replaced(st, m);
        WithdrawSound(st, original);
        assert SideSound(st, st.index[original]);
        PlacedNeeds(p.0, p.1, p.2);
      case _ =>
    }
  }
}
