/**
  A condition on a message stream alone that makes it admissible, and that survives the loss of
  any messages: no reference is introduced twice.
 */
module StreamLaws {
  import opened Words
  import opened Collections
  import opened BookSpec
  import opened EngineSpec

  /** The reference a message may bring into the book. */
  function Introduces(m: Message): (ref: Option<uint64>) {
    match m
    case Add(_, o) => if ValidSide(o.side) then Some(o.ref) else None
    case Replace(_, ref, _, _) => Some(ref)
    case _ => None
  }

  ghost function Introduced(ms: seq<Message>): (refs: set<uint64>) {
    set i | 0 <= i < |ms| && Introduces(ms[i]).Some? :: Introduces(ms[i]).value
  }

  ghost predicate NoRepeat(ms: seq<Message>, i: nat, j: nat)
    requires i < |ms| && j < |ms|
  {
    Introduces(ms[i]).Some? && Introduces(ms[i]) == Introduces(ms[j]) ==> i == j
  }

  /** References are introduced once each, none is the reserved one, and they fit the order map. */
  ghost predicate Clean(ms: seq<Message>) {
    && (forall i: nat, j: nat {:trigger NoRepeat(ms, i, j)} | i < |ms| && j < |ms| :: NoRepeat(ms, i, j))
    && EMPTY !in Introduced(ms) && |Introduced(ms)| < MAP_SLOTS
  }

  lemma IntroducedSnoc(ms: seq<Message>, m: Message)
    ensures Introduced(ms + [m]) == Introduced(ms) + if Introduces(m).Some? then {Introduces(m).value} else {}
  {
    var all := ms + [m];
    forall r | r in Introduced(ms) ensures r in Introduced(all) {
      var i :| 0 <= i < |ms| && Introduces(ms[i]).Some? && Introduces(ms[i]).value == r;
      assert all[i] == ms[i];
    }
    assert all[|ms|] == m;
  }

  lemma PlacedIntroduces(st: EngineState, locate: uint16, o: Order)
    requires |st.sides| == SIDES
    ensures Placed(st, locate, o).index.Keys <= st.index.Keys + {o.ref}
  {
  }

  lemma StepIntroduces(st: EngineState, m: Message)
    requires |st.sides| == SIDES
    ensures Step(st, m).index.Keys <= st.index.Keys + if Introduces(m).Some? then {Introduces(m).value} else {}
  {
    match m
    case Add(locate, o) => PlacedIntroduces(st, locate, o);
    case Replace(original, _, _, _) =>
      if Knows(st, original) {
        var p := Replaced(st, m);
        PlacedIntroduces(p.0, p.1, p.2);
      }
    case _ =>
  }

  /** Live references were introduced. */
  lemma {:induction false} LiveIntroduced(ms: seq<Message>)
    ensures Run(Initial(), ms).index.Keys <= Introduced(ms)
  {
    if ms != [] {
      var before, m := ms[..|ms| - 1], ms[|ms| - 1];
      LiveIntroduced(before);
      StepIntroduces(Run(Initial(), before), m);
      IntroducedSnoc(before, m);
      assert ms == before + [m];
    }
  }

  /** Subsequences of a clean stream are clean. */
  lemma CleanPicks(xs: seq<Message>, ms: seq<Message>, positions: seq<nat>)
    requires Clean(ms) && Picks(xs, ms, positions)
    ensures Clean(xs)
  {
    forall i: nat, j: nat | i < |xs| && j < |xs| ensures NoRepeat(xs, i, j) {
      assert NoRepeat(ms, positions[i], positions[j]);
    }
    forall r | r in Introduced(xs) ensures r in Introduced(ms) {
      var i :| 0 <= i < |xs| && Introduces(xs[i]).Some? && Introduces(xs[i]).value == r;
      assert Introduces(ms[positions[i]]).value == r;
    }
    SubsetCount(Introduced(xs), Introduced(ms));
  }

  /** A message that introduces a new reference can be placed. */
  lemma CanPlaceNew(st: EngineState, locate: uint16, o: Order, refs: set<uint64>)
    requires |st.sides| == SIDES && st.index.Keys <= refs && o.ref in refs && o.ref !in st.index
    requires EMPTY !in refs && |refs| < MAP_SLOTS
    ensures CanPlace(st, locate, o)
  {
    var left := st.index - RefSet(SweepFor(st, locate, o).removed);
    SubsetCount(left.Keys + {o.ref}, refs);
    assert |left.Keys + {o.ref}| == |left.Keys| + 1;
  }

  lemma AcceptsNew(st: EngineState, m: Message, refs: set<uint64>)
    requires |st.sides| == SIDES && st.index.Keys <= refs && EMPTY !in refs && |refs| < MAP_SLOTS
    requires Introduces(m).Some? ==> Introduces(m).value in refs && Introduces(m).value !in st.index
    ensures Accepts(st, m)
  {
    match m
    case Add(locate, o) => if ValidSide(o.side) { CanPlaceNew(st, locate, o, refs); }
    case Replace(original, _, _, _) =>
      if Knows(st, original) {
        var p := Replaced(st, m);
        CanPlaceNew(p.0, p.1, p.2, refs);
      }
    case _ =>
  }

  /** A clean stream is admissible from an empty engine. */
  lemma {:induction false} CleanAdmissible(ms: seq<Message>)
    requires Clean(ms)
    ensures Admissible(Initial(), ms)
  {
    if ms != [] {
      var n := |ms| - 1;
      var before, m := ms[..n], ms[n];
      CleanPicks(before, ms, seq(n, i => i));
      CleanAdmissible(before);
      LiveIntroduced(before);
      IntroducedSnoc(before, m);
      assert ms == before + [m];
      if Introduces(m).Some? {
        NewReference(ms);
      }
      AcceptsNew(Run(Initial(), before), m, Introduced(ms));
    }
  }

  lemma NewReference(ms: seq<Message>)
    requires Clean(ms) && ms != [] && Introduces(ms[|ms| - 1]).Some?
    ensures Introduces(ms[|ms| - 1]).value !in Introduced(ms[..|ms| - 1])
  {
    forall i: nat | i < |ms| - 1 ensures Introduces(ms[i]) != Introduces(ms[|ms| - 1]) {
      assert NoRepeat(ms, |ms| - 1, i);
    }
  }

  /** So any part of a clean stream keeps every reachable state sound. */
  lemma PartSound(xs: seq<Message>, ms: seq<Message>, positions: seq<nat>)
    requires Clean(ms) && Picks(xs, ms, positions)
    ensures Admissible(Initial(), xs) && Sound(Run(Initial(), xs))
  {
    CleanPicks(xs, ms, positions);
    CleanAdmissible(xs);
    InitialSound();
    RunSound(Initial(), xs);
  }
}
