/**
  The packet buffers' free list: a Treiber stack whose loads, link writes and compare-and-swaps
  are separate atomic steps of any number of threads. A weak compare-and-swap may fail spuriously.
  `free` and `owner` are histories: the abstract stack, and who has each slot.
 */
module PacketPools {
  import opened Words
  import opened OrderPools

  /** Where a thread stands inside acquire or release; each carries its snapshots. */
  datatype Stage =
    | Outside
    | AcquireLoaded(head: uint32)
    | AcquireRead(head: uint32, next: uint32)
    | ReleaseLoaded(idx: uint32, head: uint32)
    | ReleaseLinked(idx: uint32, head: uint32)

  datatype Owner = Listed | With(thread: nat)

  datatype Pool = Pool(
    nextFree: seq<uint32>, freeHead: uint32, stages: seq<Stage>,
    free: seq<uint32>, owner: seq<Owner>)

  datatype Action =
    | LoadToAcquire
    | ReadNext
    | CasAcquire(spurious: bool)
    | LoadToRelease(idx: uint32)
    | WriteLink
    | CasRelease(spurious: bool)
    | Pass(to: nat, idx: uint32) // a held slot changes hands outside the pool

  /** One action of one thread. */
  datatype Move = Move(thread: nat, action: Action)

  /** Slot numbers that threads use exist. */
  predicate InBounds(p: Pool) {
    && |p.owner| == |p.nextFree|
    && (forall i | 0 <= i < |p.nextFree| :: p.nextFree[i] < |p.nextFree| || p.nextFree[i] == INVALID)
    && (p.freeHead < |p.nextFree| || p.freeHead == INVALID)
    && (forall t | 0 <= t < |p.stages| :: StageInBounds(p.stages[t], |p.nextFree|))
  }

  predicate StageInBounds(s: Stage, slots: nat) {
    match s
    case Outside => true
    case AcquireLoaded(head) => head < slots
    case AcquireRead(head, next) => head < slots && (next < slots || next == INVALID)
    case ReleaseLoaded(idx, head) => idx < slots && (head < slots || head == INVALID)
    case ReleaseLinked(idx, head) => idx < slots && (head < slots || head == INVALID)
  }

  /** Only `acquirers` acquire; a thread releases or passes on only what it holds. */
  predicate Enabled(p: Pool, m: Move, acquirers: set<nat>) {
    && m.thread < |p.stages|
    && var stage := p.stages[m.thread];
       match m.action
       case LoadToAcquire => stage.Outside? && m.thread in acquirers
       case ReadNext => stage.AcquireLoaded?
       case CasAcquire(_) => stage.AcquireRead?
       case LoadToRelease(idx) => stage.Outside? && Owns(p, m.thread, idx)
       case WriteLink => stage.ReleaseLoaded?
       case CasRelease(_) => stage.ReleaseLinked?
       case Pass(to, idx) => stage.Outside? && Owns(p, m.thread, idx) && to < |p.stages|
  }

  predicate Owns(p: Pool, t: nat, idx: uint32) {
    idx < |p.owner| && p.owner[idx] == With(t)
  }

  /** Back at the loop head of acquire with a freshly loaded list head. */
  function Reloaded(p: Pool): (s: Stage) {
    if p.freeHead == INVALID then Outside else AcquireLoaded(p.freeHead)
  }

  function Apply(p: Pool, m: Move): (p': Pool)
    requires InBounds(p) && Enabled(p, m, {m.thread})
    ensures InBounds(p') && |p'.stages| == |p.stages| && |p'.nextFree| == |p.nextFree|
  {
    var t, stage := m.thread, p.stages[m.thread];
    match m.action
    case LoadToAcquire => p.(stages := p.stages[t := Reloaded(p)])
    case ReadNext => p.(stages := p.stages[t := AcquireRead(stage.head, p.nextFree[stage.head])])
    case CasAcquire(spurious) =>
      if spurious || p.freeHead != stage.head then p.(stages := p.stages[t := Reloaded(p)])
      else p.(freeHead := stage.next, stages := p.stages[t := Outside],
              free := if p.free == [] then [] else p.free[1..], owner := p.owner[stage.head := With(t)])
    case LoadToRelease(idx) => p.(stages := p.stages[t := ReleaseLoaded(idx, p.freeHead)])
    case WriteLink =>
      p.(nextFree := p.nextFree[stage.idx := stage.head],
         stages := p.stages[t := ReleaseLinked(stage.idx, stage.head)])
    case CasRelease(spurious) =>
      if spurious || p.freeHead != stage.head
      then p.(stages := p.stages[t := ReleaseLoaded(stage.idx, p.freeHead)])
      else p.(freeHead := stage.idx, stages := p.stages[t := Outside],
              free := [stage.idx] + p.free, owner := p.owner[stage.idx := Listed])
    case Pass(to, idx) => p.(owner := p.owner[idx := With(to)])
  }

  /** All slots chained in order, all threads outside. */
  function Fresh(slots: nat, threads: nat): (p: Pool)
    requires 0 < slots <= INVALID
  {
    Pool(seq(slots, i => if i + 1 < slots then i + 1 else INVALID), 0, seq(threads, _ => Outside),
         seq(slots, i requires 0 <= i < slots => i), seq(slots, _ => Listed))
  }

  ghost predicate Possible(p: Pool, moves: seq<Move>, acquirers: set<nat>)
    requires InBounds(p)
    decreases |moves|
  {
    moves == [] || (Enabled(p, moves[0], acquirers) && Possible(Apply(p, moves[0]), moves[1..], acquirers))
  }

  function Run(p: Pool, moves: seq<Move>, acquirers: set<nat>): (p': Pool)
    requires InBounds(p) && Possible(p, moves, acquirers)
    ensures InBounds(p') && |p'.stages| == |p.stages| && |p'.nextFree| == |p.nextFree|
    decreases |moves|
  {
    if moves == [] then p else Run(Apply(p, moves[0]), moves[1..], acquirers)
  }

  // ---- What every interleaving keeps ----

  ghost predicate ChainLink(p: Pool, i: nat)
    requires InBounds(p) && i < |p.free| && p.free[i] < |p.nextFree|
  {
    p.nextFree[p.free[i]] == At(p.free, i + 1)
  }

  /** `free` lists exactly the unowned slots, each once, in link order from `freeHead`. */
  ghost predicate Chained(p: Pool)
    requires InBounds(p)
  {
    && Distinct(p.free)
    && (forall i | 0 <= i < |p.free| :: p.free[i] < |p.owner| && p.owner[p.free[i]] == Listed)
    && (forall n | 0 <= n < |p.owner| && p.owner[n] == Listed :: n in p.free)
    && p.freeHead == At(p.free, 0)
    && (forall i {:trigger ChainLink(p, i)} | 0 <= i < |p.free| :: ChainLink(p, i))
  }

  /** Snapshots of thread t that are still good: the loaded head is still on the list. */
  ghost predicate StageSound(p: Pool, t: nat, acquirer: nat)
    requires InBounds(p) && t < |p.stages|
  {
    match p.stages[t]
    case Outside => true
    case AcquireLoaded(head) => t == acquirer && p.owner[head] == Listed
    case AcquireRead(head, next) => t == acquirer && p.owner[head] == Listed && p.nextFree[head] == next
    case ReleaseLoaded(idx, _) => p.owner[idx] == With(t)
    case ReleaseLinked(idx, head) => p.owner[idx] == With(t) && p.nextFree[idx] == head
  }

  ghost predicate Sound(p: Pool, acquirer: nat) {
    && InBounds(p) && |p.owner| <= INVALID && Chained(p)
    && (forall t {:trigger StageSound(p, t, acquirer)} | 0 <= t < |p.stages| :: StageSound(p, t, acquirer))
  }

  /** No ABA: a compare-and-swap that can succeed installs the true successor. */
  lemma CasInstallsSuccessor(p: Pool, t: nat, acquirer: nat)
    requires Sound(p, acquirer) && t < |p.stages| && p.stages[t].AcquireRead?
    requires p.freeHead == p.stages[t].head
    ensures p.free != [] && p.free[0] == p.stages[t].head && p.stages[t].next == At(p.free, 1)
  {
    assert StageSound(p, t, acquirer);
    assert ChainLink(p, 0);
  }

  /** Steps that leave the list and its slots' links alone leave it a chain. */
  lemma ChainKept(p: Pool, p': Pool)
    requires InBounds(p) && InBounds(p') && Chained(p)
    requires p'.free == p.free && p'.freeHead == p.freeHead && |p'.owner| == |p.owner|
    requires forall n | 0 <= n < |p.owner| :: p.owner[n] == Listed <==> p'.owner[n] == Listed
    requires forall n | 0 <= n < |p.owner| && p.owner[n] == Listed :: p'.nextFree[n] == p.nextFree[n]
    ensures Chained(p')
  {
    forall i {:trigger ChainLink(p', i)} | 0 <= i < |p'.free| ensures ChainLink(p', i) {
      assert ChainLink(p, i);
    }
  }

  /** A successful acquire takes exactly the first free slot. */
  lemma Popped(p: Pool, t: nat, acquirer: nat)
    requires Sound(p, acquirer) && t < |p.stages| && p.stages[t].AcquireRead?
    requires p.freeHead == p.stages[t].head
    ensures Chained(Apply(p, Move(t, CasAcquire(false))))
  {
    CasInstallsSuccessor(p, t, acquirer);
    var p' := Apply(p, Move(t, CasAcquire(false)));
    DistinctTail(p.free);
    forall n | 0 <= n < |p'.owner| && p'.owner[n] == Listed ensures n in p'.free {
      assert n in p.free && n != p.free[0];
    }
    forall i | 0 <= i < |p'.free|
      ensures p'.free[i] < |p'.owner| && p'.owner[p'.free[i]] == Listed
    {
      assert p'.free[i] == p.free[i + 1];
    }
    forall i {:trigger ChainLink(p', i)} | 0 <= i < |p'.free| ensures ChainLink(p', i) {
      assert ChainLink(p, i + 1);
    }
  }

  /** A successful release puts the slot in front. */
  lemma Pushed(p: Pool, t: nat, acquirer: nat)
    requires Sound(p, acquirer) && t < |p.stages| && p.stages[t].ReleaseLinked?
    requires p.freeHead == p.stages[t].head
    ensures Chained(Apply(p, Move(t, CasRelease(false))))
  {
    assert StageSound(p, t, acquirer);
    var p' := Apply(p, Move(t, CasRelease(false)));
    var idx := p.stages[t].idx;
    DistinctCons(idx, p.free);
    forall n | 0 <= n < |p'.owner| && p'.owner[n] == Listed ensures n in p'.free {
      assert n != idx ==> n in p.free;
    }
    forall i | 0 <= i < |p'.free|
      ensures p'.free[i] < |p'.owner| && p'.owner[p'.free[i]] == Listed
    {
      assert i > 0 ==> p'.free[i] == p.free[i - 1];
    }
    forall i {:trigger ChainLink(p', i)} | 0 <= i < |p'.free| ensures ChainLink(p', i) {
      assert i > 0 ==> ChainLink(p, i - 1);
    }
  }

  lemma StepChained(p: Pool, m: Move, acquirer: nat)
    requires Sound(p, acquirer) && Enabled(p, m, {acquirer})
    ensures Chained(Apply(p, m))
  {
    var p', stage := Apply(p, m), p.stages[m.thread];
    assert StageSound(p, m.thread, acquirer);
    match m.action
    case CasAcquire(spurious) =>
      if !spurious && p.freeHead == stage.head { Popped(p, m.thread, acquirer); } else { ChainKept(p, p'); }
    case CasRelease(spurious) =>
      if !spurious && p.freeHead == stage.head { Pushed(p, m.thread, acquirer); } else { ChainKept(p, p'); }
    case LoadToAcquire => ChainKept(p, p');
    case ReadNext => ChainKept(p, p');
    case LoadToRelease(_) => ChainKept(p, p');
    case WriteLink => ChainKept(p, p');
    case Pass(_, _) => ChainKept(p, p');
  }

  lemma StepStage(p: Pool, m: Move, acquirer: nat, t: nat)
    requires Sound(p, acquirer) && Enabled(p, m, {acquirer}) && t < |p.stages|
    ensures StageSound(Apply(p, m), t, acquirer)
  {
    assert StageSound(p, t, acquirer) && StageSound(p, m.thread, acquirer);
    assert p.freeHead != INVALID ==> p.free != [] && p.owner[p.free[0]] == Listed;
  }

  lemma StepSound(p: Pool, m: Move, acquirer: nat)
    requires Sound(p, acquirer) && Enabled(p, m, {acquirer})
    ensures Sound(Apply(p, m), acquirer)
  {
    StepChained(p, m, acquirer);
    forall t {:trigger StageSound(Apply(p, m), t, acquirer)} | 0 <= t < |p.stages|
      ensures StageSound(Apply(p, m), t, acquirer)
    {
      StepStage(p, m, acquirer, t);
    }
  }

  lemma FreshSound(slots: nat, threads: nat, acquirer: nat)
    requires 0 < slots <= INVALID
    ensures Sound(Fresh(slots, threads), acquirer)
  {
    var p := Fresh(slots, threads);
    forall i: nat, j: nat | i < |p.free| && j < |p.free| ensures Differ(p.free, i, j) {}
    forall n | 0 <= n < |p.owner| ensures n in p.free {
      assert p.free[n] == n;
    }
    forall i {:trigger ChainLink(p, i)} | 0 <= i < |p.free| ensures ChainLink(p, i) {}
    forall t {:trigger StageSound(p, t, acquirer)} | 0 <= t < |p.stages| ensures StageSound(p, t, acquirer) {}
  }

  lemma {:induction false} RunSound(p: Pool, moves: seq<Move>, acquirer: nat)
    requires Sound(p, acquirer) && Possible(p, moves, {acquirer})
    ensures Sound(Run(p, moves, {acquirer}), acquirer)
    decreases |moves|
  {
    if moves != [] {
      StepSound(p, moves[0], acquirer);
      RunSound(Apply(p, moves[0]), moves[1..], acquirer);
    }
  }

  // ---- One acquiring thread is exactly what it takes ----

  /** The slot that acquire would hand out is not held by anyone. */
  ghost predicate Exclusive(p: Pool) {
    p.freeHead < |p.owner| ==> p.owner[p.freeHead] == Listed
  }

  lemma {:induction false} RunAppend(p: Pool, xs: seq<Move>, ys: seq<Move>, acquirers: set<nat>)
    requires InBounds(p) && Possible(p, xs, acquirers) && Possible(Run(p, xs, acquirers), ys, acquirers)
    ensures Possible(p, xs + ys, acquirers)
    ensures Run(p, xs + ys, acquirers) == Run(Run(p, xs, acquirers), ys, acquirers)
    decreases |xs|
  {
    if xs == [] {
      assert xs + ys == ys;
    } else {
      assert (xs + ys)[1..] == xs[1..] + ys;
      RunAppend(Apply(p, xs[0]), xs[1..], ys, acquirers);
    }
  }

  function AcquireMoves(t: nat): (moves: seq<Move>) {
    [Move(t, LoadToAcquire), Move(t, ReadNext), Move(t, CasAcquire(false))]
  }

  function ReleaseMoves(t: nat, idx: uint32): (moves: seq<Move>) {
    [Move(t, LoadToRelease(idx)), Move(t, WriteLink), Move(t, CasRelease(false))]
  }

  /** An acquire that nobody interrupts. */
  lemma AcquireAlone(p: Pool, t: nat, acquirers: set<nat>)
    requires InBounds(p) && t < |p.stages| && t in acquirers && p.stages[t].Outside? && p.freeHead != INVALID
    ensures Possible(p, AcquireMoves(t), acquirers)
    ensures Run(p, AcquireMoves(t), acquirers)
         == p.(freeHead := p.nextFree[p.freeHead], free := if p.free == [] then [] else p.free[1..],
               owner := p.owner[p.freeHead := With(t)])
  {
    var moves := AcquireMoves(t);
    var p1 := Apply(p, moves[0]);
    var p2 := Apply(p1, moves[1]);
    var p3 := Apply(p2, moves[2]);
    assert p3.stages == p.stages;
    OneMove(p2, moves[2], acquirers);
    assert moves[1..][1..] == [moves[2]];
    assert Possible(p1, moves[1..], acquirers) && Run(p1, moves[1..], acquirers) == p3;
  }

  /** A release that nobody interrupts. */
  lemma ReleaseAlone(p: Pool, t: nat, idx: uint32, acquirers: set<nat>)
    requires InBounds(p) && t < |p.stages| && p.stages[t].Outside? && Owns(p, t, idx)
    ensures Possible(p, ReleaseMoves(t, idx), acquirers)
    ensures Run(p, ReleaseMoves(t, idx), acquirers)
         == p.(nextFree := p.nextFree[idx := p.freeHead], freeHead := idx, free := [idx] + p.free,
               owner := p.owner[idx := Listed])
  {
    var moves := ReleaseMoves(t, idx);
    var p1 := Apply(p, moves[0]);
    var p2 := Apply(p1, moves[1]);
    var p3 := Apply(p2, moves[2]);
    assert p3.stages == p.stages;
    OneMove(p2, moves[2], acquirers);
    assert moves[1..][1..] == [moves[2]];
    assert Possible(p1, moves[1..], acquirers) && Run(p1, moves[1..], acquirers) == p3;
  }

  lemma OneMove(p: Pool, m: Move, acquirers: set<nat>)
    requires InBounds(p) && Enabled(p, m, acquirers)
    ensures Possible(p, [m], acquirers) && Run(p, [m], acquirers) == Apply(p, m)
  {
  }

  /** Thread b takes slots 0 and 1 and puts 0 back. */
  function Borrowing(b: nat): (moves: seq<Move>) {
    AcquireMoves(b) + AcquireMoves(b) + ReleaseMoves(b, 0)
  }

  lemma BorrowingRuns(p: Pool, b: nat, acquirers: set<nat>)
    requires InBounds(p) && b < |p.stages| && b in acquirers && p.stages[b].Outside?
    requires |p.nextFree| >= 2 && p.freeHead == 0 && p.nextFree[0] == 1
    ensures Possible(p, Borrowing(b), acquirers)
    ensures var p' := Run(p, Borrowing(b), acquirers);
            p'.freeHead == 0 && p'.owner == p.owner[1 := With(b)][0 := Listed] && p'.stages == p.stages
  {
    AcquireAlone(p, b, acquirers);
    var p1 := Run(p, AcquireMoves(b), acquirers);
    AcquireAlone(p1, b, acquirers);
    var p2 := Run(p1, AcquireMoves(b), acquirers);
    RunAppend(p, AcquireMoves(b), AcquireMoves(b), acquirers);
    ReleaseAlone(p2, b, 0, acquirers);
    RunAppend(p, AcquireMoves(b) + AcquireMoves(b), ReleaseMoves(b, 0), acquirers);
  }

  /** Thread a sleeps between reading slot 0's link and swapping it in. */
  function AbaMoves(a: nat, b: nat): (moves: seq<Move>) {
    [Move(a, LoadToAcquire), Move(a, ReadNext)] + Borrowing(b) + [Move(a, CasAcquire(false))]
  }

  /** With two acquirers, slot 1 ends up both held by b and first on the list. */
  lemma TwoAcquirersClash(slots: nat, threads: nat, a: nat, b: nat, acquirers: set<nat>)
    requires 2 <= slots <= INVALID && a < threads && b < threads && a != b && a in acquirers && b in acquirers
    ensures Possible(Fresh(slots, threads), AbaMoves(a, b), acquirers)
    ensures var p := Run(Fresh(slots, threads), AbaMoves(a, b), acquirers);
            p.freeHead == 1 && p.owner[1] == With(b)
  {
    var p0 := Fresh(slots, threads);
    var start := [Move(a, LoadToAcquire), Move(a, ReadNext)];
    var p1 := Apply(p0, start[0]);
    var p2 := Apply(p1, start[1]);
    OneMove(p1, start[1], acquirers);
    assert start[1..] == [start[1]];
    assert Possible(p0, start, acquirers) && Run(p0, start, acquirers) == p2;
    BorrowingRuns(p2, b, acquirers);
    RunAppend(p0, start, Borrowing(b), acquirers);
    var p3 := Run(p2, Borrowing(b), acquirers);
    assert p3.stages[a] == AcquireRead(0, 1);
    OneMove(p3, Move(a, CasAcquire(false)), acquirers);
    RunAppend(p0, start + Borrowing(b), [Move(a, CasAcquire(false))], acquirers);
  }

  lemma {:induction false} FewerAcquirers(p: Pool, moves: seq<Move>, acquirers: set<nat>, acquirer: nat)
    requires InBounds(p) && Possible(p, moves, acquirers) && acquirers <= {acquirer}
    ensures Possible(p, moves, {acquirer}) && Run(p, moves, {acquirer}) == Run(p, moves, acquirers)
    decreases |moves|
  {
    if moves != [] {
      FewerAcquirers(Apply(p, moves[0]), moves[1..], acquirers, acquirer);
    }
  }

  /** Over all interleavings, no held slot is ever handed out again iff at most one thread acquires. */
  lemma SafeIffOneAcquirer(slots: nat, threads: nat, acquirers: set<nat>)
    requires 2 <= slots <= INVALID && forall t | t in acquirers :: t < threads
    ensures (forall moves | Possible(Fresh(slots, threads), moves, acquirers) ::
               Exclusive(Run(Fresh(slots, threads), moves, acquirers)))
       <==> (forall a, b | a in acquirers && b in acquirers :: a == b)
  {
    var p := Fresh(slots, threads);
    if a, b :| a in acquirers && b in acquirers && a != b {
      TwoAcquirersClash(slots, threads, a, b, acquirers);
    } else {
      var acquirer := if q :| q in acquirers then q else 0;
      forall moves | Possible(p, moves, acquirers) ensures Exclusive(Run(p, moves, acquirers)) {
        FewerAcquirers(p, moves, acquirers, acquirer);
        FreshSound(slots, threads, acquirer);
        RunSound(p, moves, acquirer);
      }
    }
  }
}
