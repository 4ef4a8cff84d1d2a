/**
  The engine without its data structures: one priority list per book side, and an index
  from order reference to the side the order rests on. `Step` says what one message does.
 */
module EngineSpec {
  import opened Words
  import opened Collections
  import opened BookSpec

  const BOOKS: nat := 65536
  const SIDES: nat := 131072
  /** Slots of the order map. */
  const MAP_SLOTS: nat := 8388608

  /** ITCH messages by effect: A/F, D, E/C/X, U, and everything else. */
  datatype Message =
    | Add(locate: uint16, order: Order)
    | Delete(ref: uint64)
    | Reduce(ref: uint64, shares: uint32)
    | Replace(original: uint64, ref: uint64, shares: uint32, price: uint32)
    | Other

  datatype EngineState = EngineState(sides: seq<seq<Order>>, index: map<uint64, nat>)

  function SideNo(locate: uint16, bid: bool): (k: nat)
    ensures k < SIDES && k / 2 == locate && (k % 2 == 0 <==> bid)
  {
    2 * locate + if bid then 0 else 1
  }

  predicate IsBid(k: nat) {
    k % 2 == 0
  }

  lemma SideNumber(k: nat)
    requires k < SIDES
    ensures k / 2 < BOOKS && k == SideNo(k / 2, IsBid(k))
    ensures SideChar(IsBid(k)) == BUY <==> IsBid(k)
  {
  }

  /** First order with this reference, or the length of the list. */
  function Position(rest: seq<Order>, ref: uint64): (i: nat)
    ensures i <= |rest|
    ensures i < |rest| ==> rest[i].ref == ref
    ensures forall j | 0 <= j < i :: rest[j].ref != ref
  {
    if rest == [] || rest[0].ref == ref then 0 else 1 + Position(rest[1..], ref)
  }

  function RefSet(refs: seq<uint64>): (s: set<uint64>) {
    set r | r in refs
  }

  // ---- One message ----

  predicate ValidSide(c: char) {
    c == BUY || c == SELL
  }

  function SweepFor(st: EngineState, locate: uint16, o: Order): (s: Sweep)
    requires |st.sides| == SIDES
  {
    var bid := o.side == BUY;
    SweepFrom(!bid, st.sides[SideNo(locate, !bid)], o.price, o.shares)
  }

  /** Matches an order against the other side and rests what is left. */
  function Placed(st: EngineState, locate: uint16, o: Order): (st': EngineState)
    requires |st.sides| == SIDES
    ensures |st'.sides| == SIDES
  {
    var bid := o.side == BUY;
    var own, opp := SideNo(locate, bid), SideNo(locate, !bid);
    var s := SweepFor(st, locate, o);
    var matched := EngineState(st.sides[opp := s.rest], st.index - RefSet(s.removed));
    if s.left == 0 then matched
    else EngineState(matched.sides[own := Rest(bid, matched.sides[own], o.(shares := s.left))],
                     matched.index[o.ref := own])
  }

  predicate Knows(st: EngineState, ref: uint64) {
    && ref in st.index && st.index[ref] < |st.sides|
    && Position(st.sides[st.index[ref]], ref) < |st.sides[st.index[ref]]|
  }

  /** The resting order with a known reference. */
  function Lookup(st: EngineState, ref: uint64): (o: Order)
    requires Knows(st, ref)
    ensures o.ref == ref
  {
    st.sides[st.index[ref]][Position(st.sides[st.index[ref]], ref)]
  }

  function Withdraw(st: EngineState, ref: uint64): (st': EngineState)
    requires Knows(st, ref)
    ensures |st'.sides| == |st.sides|
  {
    var k := st.index[ref];
    EngineState(st.sides[k := RemoveAt(st.sides[k], Position(st.sides[k], ref))], st.index - {ref})
  }

  function SetShares(st: EngineState, ref: uint64, shares: uint32): (st': EngineState)
    requires Knows(st, ref)
  {
    var k := st.index[ref];
    var i := Position(st.sides[k], ref);
    st.(sides := st.sides[k := st.sides[k][i := st.sides[k][i].(shares := shares)]])
  }

  /** The order a replace message stands for; its side is inherited. */
  function Replacement(st: EngineState, m: Message): (o: Order)
    requires m.Replace? && Knows(st, m.original)
  {
    Order(m.ref, m.shares, m.price, Lookup(st, m.original).side)
  }

  /** What a replace message matches and rests against: the book without the original. */
  function Replaced(st: EngineState, m: Message): (p: (EngineState, uint16, Order))
    requires m.Replace? && |st.sides| == SIDES && Knows(st, m.original)
    ensures |p.0.sides| == SIDES
  {
    (Withdraw(st, m.original), st.index[m.original] / 2, Replacement(st, m))
  }

  function Step(st: EngineState, m: Message): (st': EngineState)
    requires |st.sides| == SIDES
    ensures |st'.sides| == SIDES
  {
    match m
    case Add(locate, o) => if ValidSide(o.side) then Placed(st, locate, o) else st
    case Delete(ref) => if Knows(st, ref) then Withdraw(st, ref) else st
    case Reduce(ref, shares) =>
      if !Knows(st, ref) then st
      else if shares >= Lookup(st, ref).shares then Withdraw(st, ref)
      else SetShares(st, ref, Lookup(st, ref).shares - shares)
    case Replace(original, _, _, _) =>
      if Knows(st, original) then var p := Replaced(st, m); Placed(p.0, p.1, p.2) else st
    case Other => st
  }

  /** The sweep a message causes, if it causes one. */
  function SweepOf(st: EngineState, m: Message): (s: Option<Sweep>)
    requires |st.sides| == SIDES
  {
    match m
    case Add(locate, o) => if ValidSide(o.side) then Some(SweepFor(st, locate, o)) else None
    case Replace(original, _, _, _) =>
      if Knows(st, original) then var p := Replaced(st, m); Some(SweepFor(p.0, p.1, p.2)) else None
    case _ => None
  }

  // ---- What the feed must not do ----

  /** If the order rests, its reference is usable and free, and the order map keeps a free slot. */
  predicate CanPlace(st: EngineState, locate: uint16, o: Order)
    requires |st.sides| == SIDES
  {
    var s := SweepFor(st, locate, o);
    var left := st.index - RefSet(s.removed);
    s.left > 0 ==> o.ref != EMPTY && o.ref !in left && |left| + 1 < MAP_SLOTS
  }

  predicate Accepts(st: EngineState, m: Message)
    requires |st.sides| == SIDES
  {
    match m
    case Add(locate, o) => ValidSide(o.side) ==> CanPlace(st, locate, o)
    case Replace(original, _, _, _) =>
      Knows(st, original) ==> var p := Replaced(st, m); CanPlace(p.0, p.1, p.2)
    case _ => true
  }

  // ---- What every reachable state satisfies ----

  /** One side's list: in priority order, funded, on the right side, and indexed under its references. */
  ghost predicate ListOK(k: nat, rest: seq<Order>, index: map<uint64, nat>) {
    && Ranked(IsBid(k), rest)
    && Funded(rest)
    && (forall i | 0 <= i < |rest| :: rest[i].side == SideChar(IsBid(k)))
    && (forall i | 0 <= i < |rest| :: rest[i].ref in index && index[rest[i].ref] == k)
    && DistinctRefs(rest)
  }

  ghost predicate DistinctRefs(rest: seq<Order>) {
    forall i {:trigger Position(rest, rest[i].ref)} | 0 <= i < |rest| :: Position(rest, rest[i].ref) == i
  }

  /** The best bid is strictly below the best ask. */
  ghost predicate Uncrossed(bids: seq<Order>, asks: seq<Order>) {
    bids != [] && asks != [] ==> bids[0].price < asks[0].price
  }

  ghost predicate BookUncrossed(st: EngineState, b: nat)
    requires |st.sides| == SIDES && b < BOOKS
  {
    Uncrossed(st.sides[2 * b], st.sides[2 * b + 1])
  }

  ghost predicate KnownRef(st: EngineState, ref: uint64) {
    Knows(st, ref) && ref != EMPTY
  }

  ghost predicate SideSound(st: EngineState, k: nat)
    requires k < |st.sides|
  {
    ListOK(k, st.sides[k], st.index)
  }

  ghost predicate Sound(st: EngineState) {
    && |st.sides| == SIDES
    && (forall k: nat {:trigger SideSound(st, k)} | k < SIDES :: SideSound(st, k))
    && (forall ref {:trigger KnownRef(st, ref)} | ref in st.index :: KnownRef(st, ref))
    && (forall b: nat {:trigger BookUncrossed(st, b)} | b < BOOKS :: BookUncrossed(st, b))
    && |st.index| < MAP_SLOTS
  }

  // ---- Matching keeps the opposite list sound ----

  /** A sweep drops a front stretch, named by the removed references, and keeps the tail. */
  lemma SweepRest(bid: bool, rest: seq<Order>, limit: uint32, shares: uint32)
    requires Funded(rest)
    ensures var s := SweepFrom(bid, rest, limit, shares);
            && IsTail(rest, s.rest, |s.removed|)
            && (forall i | 0 <= i < |s.removed| :: s.removed[i] == rest[i].ref)
  {
    SweepTakesFront(bid, rest, limit, shares);
    TakesFrontTail(bid, rest, limit, SweepFrom(bid, rest, limit, shares));
  }

  lemma TakesFrontTail(bid: bool, rest: seq<Order>, limit: uint32, s: Sweep)
    requires Funded(rest) && TakesFront(bid, rest, limit, s)
    ensures IsTail(rest, s.rest, |s.removed|)
  {
  }

  /** A tail of a sound list, with other share counts, is sound for an index without the dropped references. */
  lemma TailListOK(k: nat, rest: seq<Order>, sub: seq<Order>, gone: seq<uint64>, index: map<uint64, nat>)
    requires ListOK(k, rest, index) && IsTail(rest, sub, |gone|)
    requires forall i | 0 <= i < |gone| :: gone[i] == rest[i].ref
    ensures ListOK(k, sub, index - RefSet(gone))
    ensures forall r | r in gone :: r in index && index[r] == k
    ensures forall r | Position(rest, r) < |rest| && r !in gone :: Position(sub, r) < |sub|
  {
    TailRanked(IsBid(k), rest, sub, |gone|);
    forall i | 0 <= i < |sub|
      ensures sub[i].shares > 0 && sub[i].side == SideChar(IsBid(k)) && sub[i].ref !in gone
      ensures sub[i].ref in index && index[sub[i].ref] == k
      ensures Position(sub, sub[i].ref) == i
    {
      assert TailEntry(rest, sub, |gone|, i);
      TailPosition(rest, sub, gone, i);
    }
    forall r | Position(rest, r) < |rest| && r !in gone ensures Position(sub, r) < |sub| {
      assert TailEntry(rest, sub, |gone|, Position(rest, r) - |gone|);
    }
  }

  lemma TailPosition(rest: seq<Order>, sub: seq<Order>, gone: seq<uint64>, i: nat)
    requires DistinctRefs(rest) && IsTail(rest, sub, |gone|) && i < |sub|
    requires forall i | 0 <= i < |gone| :: gone[i] == rest[i].ref
    ensures sub[i].ref !in gone && Position(sub, sub[i].ref) == i
  {
    var n := |gone|;
    assert TailEntry(rest, sub, n, i);
    assert Position(rest, rest[n + i].ref) == n + i;
    forall j | 0 <= j < i ensures sub[j].ref != sub[i].ref {
      assert TailEntry(rest, sub, n, j);
      assert rest[n + j].ref != rest[n + i].ref;
    }
  }

  lemma SweepListOK(k: nat, rest: seq<Order>, index: map<uint64, nat>, limit: uint32, shares: uint32)
    requires ListOK(k, rest, index)
    ensures var s := SweepFrom(IsBid(k), rest, limit, shares);
            && ListOK(k, s.rest, index - RefSet(s.removed))
            && (forall r | r in s.removed :: r in index && index[r] == k)
            && (forall r | Position(rest, r) < |rest| && r !in s.removed :: Position(s.rest, r) < |s.rest|)
  {
    var s := SweepFrom(IsBid(k), rest, limit, shares);
    SweepRest(IsBid(k), rest, limit, shares);
    TailListOK(k, rest, s.rest, s.removed, index);
  }

  // ---- Resting, withdrawing and reducing keep a list sound ----

  /** A list only depends on how the index treats its own references. */
  lemma ListOKFrame(k: nat, rest: seq<Order>, index: map<uint64, nat>, index': map<uint64, nat>)
    requires ListOK(k, rest, index)
    requires forall r | r in index && index[r] == k :: r in index' && index'[r] == k
    ensures ListOK(k, rest, index')
  {
  }

  lemma RestListOK(k: nat, rest: seq<Order>, o: Order, index: map<uint64, nat>)
    requires ListOK(k, rest, index) && o.ref !in index && o.shares > 0 && o.side == SideChar(IsBid(k))
    ensures ListOK(k, Rest(IsBid(k), rest, o), index[o.ref := k])
    ensures forall r | r == o.ref || Position(rest, r) < |rest| ::
              Position(Rest(IsBid(k), rest, o), r) < |Rest(IsBid(k), rest, o)|
  {
    var r, p := Rest(IsBid(k), rest, o), InsertPos(IsBid(k), rest, o.price);
    RestRanked(IsBid(k), rest, o);
    assert r[p] == o;
    forall i | 0 <= i < |r| ensures Position(r, r[i].ref) == i {
      InsertPosition(rest, p, o, i);
    }
    forall q | Position(rest, q) < |rest| ensures Position(r, q) < |r| {
      var i := Position(rest, q);
      assert r[if i < p then i else i + 1].ref == q;
    }
  }

  lemma InsertPosition(rest: seq<Order>, p: nat, o: Order, i: nat)
    requires DistinctRefs(rest) && p <= |rest| && i <= |rest|
    requires forall j | 0 <= j < |rest| :: rest[j].ref != o.ref
    ensures var r := InsertAt(rest, p, o); Position(r, r[i].ref) == i
  {
    var r := InsertAt(rest, p, o);
    if i != p {
      var was := if i < p then i else i - 1;
      assert Position(rest, rest[was].ref) == was;
      forall j | 0 <= j < i ensures r[j].ref != r[i].ref {
        assert j != p ==> rest[if j < p then j else j - 1].ref != rest[was].ref;
      }
    }
  }

  lemma RemoveListOK(k: nat, rest: seq<Order>, p: nat, index: map<uint64, nat>)
    requires ListOK(k, rest, index) && p < |rest|
    ensures ListOK(k, RemoveAt(rest, p), index - {rest[p].ref})
    ensures forall r | Position(rest, r) < |rest| && r != rest[p].ref ::
              Position(RemoveAt(rest, p), r) < |RemoveAt(rest, p)|
  {
    var r := RemoveAt(rest, p);
    RemoveRanked(IsBid(k), rest, p);
    forall i | 0 <= i < |r| ensures r[i].ref != rest[p].ref && Position(r, r[i].ref) == i {
      RemovePosition(rest, p, i);
    }
    forall i | 0 <= i < |r| ensures r[i] == rest[if i < p then i else i + 1] {}
    forall q | Position(rest, q) < |rest| && q != rest[p].ref ensures Position(r, q) < |r| {
      RemoveKeeps(rest, p, q);
    }
  }

  lemma RemoveRanked(bid: bool, rest: seq<Order>, p: nat)
    requires Ranked(bid, rest) && p < |rest|
    ensures Ranked(bid, RemoveAt(rest, p))
  {
    var r := RemoveAt(rest, p);
    forall i: nat, j: nat | i <= j < |r| ensures Behind(bid, r, i, j) {
      assert Behind(bid, rest, if i < p then i else i + 1, if j < p then j else j + 1);
    }
  }

  lemma RemoveKeeps(rest: seq<Order>, p: nat, q: uint64)
    requires p < |rest| && Position(rest, q) < |rest| && q != rest[p].ref
    ensures Position(RemoveAt(rest, p), q) < |RemoveAt(rest, p)|
  {
    var i := Position(rest, q);
    assert RemoveAt(rest, p)[if i < p then i else i - 1].ref == q;
  }

  lemma RemovePosition(rest: seq<Order>, p: nat, i: nat)
    requires DistinctRefs(rest) && p < |rest| && i < |rest| - 1
    ensures var r := RemoveAt(rest, p); r[i].ref != rest[p].ref && Position(r, r[i].ref) == i
  {
    var r, was := RemoveAt(rest, p), if i < p then i else i + 1;
    assert Position(rest, rest[was].ref) == was && Position(rest, rest[p].ref) == p;
    forall j | 0 <= j < i ensures r[j].ref != r[i].ref {
      assert rest[if j < p then j else j + 1].ref != rest[was].ref;
    }
  }

  lemma SharesListOK(k: nat, rest: seq<Order>, p: nat, shares: uint32, index: map<uint64, nat>)
    requires ListOK(k, rest, index) && p < |rest| && shares > 0
    ensures ListOK(k, rest[p := rest[p].(shares := shares)], index)
    ensures forall r :: Position(rest[p := rest[p].(shares := shares)], r) == Position(rest, r)
  {
    var r := rest[p := rest[p].(shares := shares)];
    forall i: nat, j: nat | i <= j < |r| ensures Behind(IsBid(k), r, i, j) {
      assert Behind(IsBid(k), rest, i, j);
    }
    forall q ensures Position(r, q) == Position(rest, q) {
      SameRefs(rest, r, q);
    }
    forall i | 0 <= i < |r| ensures Position(r, r[i].ref) == i {
      assert Position(rest, rest[i].ref) == i;
    }
  }

  lemma SameRefs(a: seq<Order>, b: seq<Order>, ref: uint64)
    requires |a| == |b| && forall i | 0 <= i < |a| :: a[i].ref == b[i].ref
    ensures Position(a, ref) == Position(b, ref)
  {
    var i, j := Position(a, ref), Position(b, ref);
    assert i < |a| ==> a[i].ref == b[i].ref;
    assert j < |b| ==> a[j].ref == b[j].ref;
  }

  // ---- Each kind of message keeps the whole state sound ----

  /** Changing one side's list and the index together. */
  lemma OneSideSound(st: EngineState, k: nat, rest: seq<Order>, index: map<uint64, nat>)
    requires Sound(st) && k < SIDES && |index| < MAP_SLOTS
    requires ListOK(k, rest, index)
    requires forall r | r in st.index && st.index[r] != k :: r in index && index[r] == st.index[r]
    requires forall r | r in index :: r != EMPTY && index[r] < SIDES
    requires forall r | r in index && index[r] != k :: r in st.index && st.index[r] == index[r]
    requires forall r | r in index && index[r] == k :: Position(rest, r) < |rest|
    requires FitsBeside(st, k, rest)
    ensures Sound(EngineState(st.sides[k := rest], index))
  {
    var st' := EngineState(st.sides[k := rest], index);
    OneSideLists(st, k, rest, index);
    forall r | r in st'.index ensures KnownRef(st', r) {
      if index[r] != k {
        OtherKnownRef(st, k, rest, index, r);
      }
    }
    forall b: nat | b < BOOKS ensures BookUncrossed(st', b) {
      OneBookUncrossed(st, k, rest, index, b);
    }
  }

  lemma OneSideLists(st: EngineState, k: nat, rest: seq<Order>, index: map<uint64, nat>)
    requires Sound(st) && k < SIDES && ListOK(k, rest, index)
    requires forall r | r in st.index && st.index[r] != k :: r in index && index[r] == st.index[r]
    ensures var st' := EngineState(st.sides[k := rest], index);
            forall j: nat {:trigger SideSound(st', j)} | j < SIDES :: SideSound(st', j)
  {
    var st' := EngineState(st.sides[k := rest], index);
    forall j: nat | j < SIDES ensures SideSound(st', j) {
      if j != k {
        assert SideSound(st, j);
        ListOKFrame(j, st.sides[j], st.index, index);
      }
    }
  }

  lemma OtherKnownRef(st: EngineState, k: nat, rest: seq<Order>, index: map<uint64, nat>, r: uint64)
    requires Sound(st) && k < SIDES && r in st.index && r in index && st.index[r] == index[r] != k
    ensures KnownRef(EngineState(st.sides[k := rest], index), r)
  {
    assert KnownRef(st, r);
  }

  lemma OneBookUncrossed(st: EngineState, k: nat, rest: seq<Order>, index: map<uint64, nat>, b: nat)
    requires Sound(st) && k < SIDES && b < BOOKS && FitsBeside(st, k, rest)
    ensures BookUncrossed(EngineState(st.sides[k := rest], index), b)
  {
    assert BookUncrossed(st, b);
    if k == 2 * b {
    } else if k == 2 * b + 1 {
    }
  }

  /** A side whose front did not improve is still uncrossed with the other side. */
  lemma StillUncrossed(st: EngineState, k: nat, rest: seq<Order>)
    requires Sound(st) && k < SIDES
    requires rest != [] ==> st.sides[k] != [] && !Better(IsBid(k), rest[0].price, st.sides[k][0].price)
    ensures FitsBeside(st, k, rest)
  {
    assert BookUncrossed(st, k / 2);
  }

  /** The list, as side k, would not cross the other side of its book. */
  ghost predicate FitsBeside(st: EngineState, k: nat, rest: seq<Order>)
    requires |st.sides| == SIDES && k < SIDES
  {
    if IsBid(k) then Uncrossed(rest, st.sides[k + 1]) else Uncrossed(st.sides[k - 1], rest)
  }

  lemma WithdrawSound(st: EngineState, ref: uint64)
    requires Sound(st) && Knows(st, ref)
    ensures Sound(Withdraw(st, ref))
  {
    var k := st.index[ref];
    var rest := st.sides[k];
    var p := Position(rest, ref);
    assert SideSound(st, k);
    RemoveListOK(k, rest, p, st.index);
    var i := if p == 0 then 1 else 0;
    assert |rest| > 1 ==> Behind(IsBid(k), rest, 0, i);
    StillUncrossed(st, k, RemoveAt(rest, p));
    FewerKeys(st.index, {ref});
    forall r | r in st.index && r != ref && st.index[r] == k ensures Position(RemoveAt(rest, p), r) < |rest| - 1 {
      assert KnownRef(st, r);
    }
    forall r | r in st.index ensures r != EMPTY && st.index[r] < SIDES { assert KnownRef(st, r); }
    OneSideSound(st, k, RemoveAt(rest, p), st.index - {ref});
  }

  lemma SetSharesSound(st: EngineState, ref: uint64, shares: uint32)
    requires Sound(st) && Knows(st, ref) && shares > 0
    ensures Sound(SetShares(st, ref, shares))
  {
    var k := st.index[ref];
    var rest, p := st.sides[k], Position(st.sides[k], ref);
    var rest' := rest[p := rest[p].(shares := shares)];
    assert SideSound(st, k);
    SharesListOK(k, rest, p, shares, st.index);
    StillUncrossed(st, k, rest');
    forall r | r in st.index
      ensures r != EMPTY && st.index[r] < SIDES && (st.index[r] == k ==> Position(rest', r) < |rest'|)
    {
      assert KnownRef(st, r);
    }
    OneSideSound(st, k, rest', st.index);
  }

  /** The matching half of placing an order. */
  lemma MatchedSound(st: EngineState, k: nat, limit: uint32, shares: uint32)
    requires Sound(st) && k < SIDES
    ensures var s := SweepFrom(IsBid(k), st.sides[k], limit, shares);
            Sound(EngineState(st.sides[k := s.rest], st.index - RefSet(s.removed)))
  {
    var rest := st.sides[k];
    var s := SweepFrom(IsBid(k), rest, limit, shares);
    assert SideSound(st, k);
    SweepListOK(k, rest, st.index, limit, shares);
    SweepRest(IsBid(k), rest, limit, shares);
    if s.rest != [] {
      assert TailEntry(rest, s.rest, |s.removed|, 0) && Behind(IsBid(k), rest, 0, |s.removed|);
    }
    StillUncrossed(st, k, s.rest);
    FewerKeys(st.index, RefSet(s.removed));
    forall r | r in st.index
      ensures r != EMPTY && st.index[r] < SIDES
      ensures st.index[r] == k && r !in s.removed ==> Position(s.rest, r) < |s.rest|
    {
      assert KnownRef(st, r);
    }
    OneSideSound(st, k, s.rest, st.index - RefSet(s.removed));
  }

  lemma RestFits(st: EngineState, k: nat, o: Order)
    requires Sound(st) && k < SIDES
    requires var other := st.sides[if IsBid(k) then k + 1 else k - 1];
             other == [] || !Crosses(!IsBid(k), other[0].price, o.price)
    ensures FitsBeside(st, k, Rest(IsBid(k), st.sides[k], o))
  {
    var rest := st.sides[k];
    var rest' := Rest(IsBid(k), rest, o);
    assert BookUncrossed(st, k / 2);
    assert rest'[0] == o || (rest != [] && rest'[0] == rest[0]);
  }

  /** The resting half: the other side has nothing left that crosses. */
  lemma RestedSound(st: EngineState, k: nat, o: Order)
    requires Sound(st) && k < SIDES
    requires o.ref !in st.index && o.ref != EMPTY && |st.index| + 1 < MAP_SLOTS
    requires o.shares > 0 && o.side == SideChar(IsBid(k))
    requires var other := st.sides[if IsBid(k) then k + 1 else k - 1];
             other == [] || !Crosses(!IsBid(k), other[0].price, o.price)
    ensures Sound(EngineState(st.sides[k := Rest(IsBid(k), st.sides[k], o)], st.index[o.ref := k]))
  {
    var rest := st.sides[k];
    var rest' := Rest(IsBid(k), rest, o);
    assert SideSound(st, k);
    RestListOK(k, rest, o, st.index);
    RestFits(st, k, o);
    forall r | r in st.index
      ensures r != EMPTY && st.index[r] < SIDES && (st.index[r] == k ==> Position(rest', r) < |rest'|)
    {
      assert KnownRef(st, r);
    }
    OneSideSound(st, k, rest', st.index[o.ref := k]);
  }

  lemma PlaceSound(st: EngineState, locate: uint16, o: Order)
    requires Sound(st) && ValidSide(o.side) && CanPlace(st, locate, o)
    ensures Sound(Placed(st, locate, o))
  {
    var bid := o.side == BUY;
    var own, opp := SideNo(locate, bid), SideNo(locate, !bid);
    var s := SweepFor(st, locate, o);
    MatchedSound(st, opp, o.price, o.shares);
    if s.left > 0 {
      SweepConserves(!bid, st.sides[opp], o.price, o.shares);
      RestedSound(EngineState(st.sides[opp := s.rest], st.index - RefSet(s.removed)), own, o.(shares := s.left));
    }
  }

  /** Every accepted message keeps the state sound: lists ranked and funded, index exact, books uncrossed. */
  lemma StepSound(st: EngineState, m: Message)
    requires Sound(st) && Accepts(st, m)
    ensures Sound(Step(st, m))
  {
    match m
    case Add(locate, o) =>
      if ValidSide(o.side) { PlaceSound(st, locate, o); }
    case Delete(ref) =>
      if Knows(st, ref) { WithdrawSound(st, ref); }
    case Reduce(ref, shares) =>
      if Knows(st, ref) {
        if shares >= Lookup(st, ref).shares { WithdrawSound(st, ref); }
        else { SetSharesSound(st, ref, Lookup(st, ref).shares - shares); }
      }
    case Replace(original, _, _, _) =>
      if Knows(st, original) { ReplaceSound(st, m); }
    case Other =>
  }

  lemma ReplaceSound(st: EngineState, m: Message)
    requires Sound(st) && m.Replace? && Knows(st, m.original) && Accepts(st, m)
    ensures Sound(Step(st, m))
  {
    var p := Replaced(st, m);
    WithdrawSound(st, m.original);
    assert SideSound(st, st.index[m.original]);
    PlaceSound(p.0, p.1, p.2);
  }

  // ---- Runs ----

  /** Nothing rests. */
  function Initial(): (st: EngineState)
    ensures |st.sides| == SIDES
  {
    EngineState(seq(SIDES, _ => []), map[])
  }

  function Run(st: EngineState, ms: seq<Message>): (st': EngineState)
    requires |st.sides| == SIDES
    ensures |st'.sides| == SIDES
  {
    if ms == [] then st else Step(Run(st, ms[..|ms| - 1]), ms[|ms| - 1])
  }

  /** Every message is acceptable in the state it arrives in. */
  ghost predicate Admissible(st: EngineState, ms: seq<Message>)
    requires |st.sides| == SIDES
  {
    ms == [] || (Admissible(st, ms[..|ms| - 1]) && Accepts(Run(st, ms[..|ms| - 1]), ms[|ms| - 1]))
  }

  lemma {:induction false} AdmissiblePrefix(st: EngineState, ms: seq<Message>, i: nat)
    requires |st.sides| == SIDES && Admissible(st, ms) && i <= |ms|
    ensures Admissible(st, ms[..i])
  {
    if i < |ms| {
      AdmissiblePrefix(st, ms[..|ms| - 1], i);
      assert ms[..|ms| - 1][..i] == ms[..i];
    } else {
      assert ms[..i] == ms;
    }
  }

  /** Most orders live at once, over the message boundaries of a run. */
  function Peak(st: EngineState, ms: seq<Message>): (n: nat)
    requires |st.sides| == SIDES
  {
    if ms == [] then |st.index| else Max(Peak(st, ms[..|ms| - 1]), |Run(st, ms).index|)
  }

  /** One more message of an admissible run. */
  lemma NextMessage(st: EngineState, ms: seq<Message>, i: nat)
    requires |st.sides| == SIDES && Admissible(st, ms) && i < |ms|
    ensures Accepts(Run(st, ms[..i]), ms[i])
    ensures Run(st, ms[..i + 1]) == Step(Run(st, ms[..i]), ms[i])
    ensures Peak(st, ms[..i + 1]) == Max(Peak(st, ms[..i]), |Step(Run(st, ms[..i]), ms[i]).index|)
  {
    AdmissiblePrefix(st, ms, i + 1);
    assert ms[..i + 1][..i] == ms[..i];
  }

  lemma InitialSound()
    ensures Sound(Initial())
  {
    forall k: nat | k < SIDES ensures SideSound(Initial(), k) { }
    forall b: nat | b < BOOKS ensures BookUncrossed(Initial(), b) { }
  }

  /** Safety over whole runs: every reachable state is sound. */
  lemma {:induction false} RunSound(st: EngineState, ms: seq<Message>)
    requires Sound(st) && Admissible(st, ms)
    ensures Sound(Run(st, ms))
  {
    if ms != [] {
      RunSound(st, ms[..|ms| - 1]);
      StepSound(Run(st, ms[..|ms| - 1]), ms[|ms| - 1]);
    }
  }
}
