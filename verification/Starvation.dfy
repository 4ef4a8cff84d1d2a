/**
  How many packet buffers it takes for acquire never to come back empty-handed: more than the ring
  has cells. With as many buffers as cells there is a run in which the network thread finds none.
 */
module Starvation {
  import opened Words
  import opened MoldUdp64
  import opened FeedHandlers
  import opened Pipelines
  import opened PipelineLaws

  // ---- States that some turns lead to ----

  ghost predicate Reaches(s: Pipe, s': Pipe)
    requires Inv(s)
  {
    exists turns :: Run(s, turns) == s'
  }

  lemma RunCons(s: Pipe, turn: Turn, rest: seq<Turn>)
    requires Inv(s)
    ensures Inv(TakeTurn(s, turn)) && Run(s, [turn] + rest) == Run(TakeTurn(s, turn), rest)
  {
    TurnKeeps(s, turn);
    assert ([turn] + rest)[1..] == rest;
  }

  lemma FirstTurn(xs: seq<Turn>, ys: seq<Turn>)
    requires xs != []
    ensures xs == [xs[0]] + xs[1..] && xs + ys == [xs[0]] + (xs[1..] + ys)
  {
  }

  lemma {:induction false} RunAppend(s: Pipe, xs: seq<Turn>, mid: Pipe, ys: seq<Turn>, end: Pipe)
    requires Inv(s) && Run(s, xs) == mid && Run(mid, ys) == end
    ensures Run(s, xs + ys) == end
    decreases |xs|
  {
    if xs == [] {
      assert xs + ys == ys;
    } else {
      var turn, rest := xs[0], xs[1..];
      FirstTurn(xs, ys);
      RunCons(s, turn, rest);
      RunAppend(TakeTurn(s, turn), rest, mid, ys, end);
      RunCons(s, turn, rest + ys);
    }
  }

  lemma ReachesOn(a: Pipe, b: Pipe, c: Pipe)
    requires Inv(a) && Inv(b) && Reaches(a, b) && Reaches(b, c)
    ensures Reaches(a, c)
  {
    var xs :| Run(a, xs) == b;
    var ys :| Run(b, ys) == c;
    RunAppend(a, xs, b, ys, c);
    ReachedBy(a, xs + ys, c);
  }

  lemma ReachedBy(s: Pipe, turns: seq<Turn>, s': Pipe)
    requires Inv(s) && Run(s, turns) == s'
    ensures Reaches(s, s')
  {
  }

  lemma OneTurn(s: Pipe, turn: Turn)
    requires Inv(s)
    ensures Inv(TakeTurn(s, turn)) && Reaches(s, TakeTurn(s, turn))
  {
    TurnKeeps(s, turn);
    assert Run(s, [turn]) == TakeTurn(s, turn);
  }

  lemma ThreeTurns(s: Pipe, turn: Turn) returns (s1: Pipe, s2: Pipe, s3: Pipe)
    requires Inv(s)
    ensures s1 == TakeTurn(s, turn) && Inv(s1)
    ensures s2 == TakeTurn(s1, turn) && Inv(s2)
    ensures s3 == TakeTurn(s2, turn) && Inv(s3)
    ensures Reaches(s, s3)
  {
    s1 := TakeTurn(s, turn);
    OneTurn(s, turn);
    s2 := TakeTurn(s1, turn);
    OneTurn(s1, turn);
    s3 := TakeTurn(s2, turn);
    OneTurn(s2, turn);
    ReachesOn(s, s1, s2);
    ReachesOn(s, s2, s3);
  }

  // ---- One packet through the network thread ----

  /** A packet of one empty message that the tracker accepts. */
  function NextData(t: Tracker): (p: bytes) {
    Encode(seq(10, _ => 0), t.nextExpected, 1, [[]])
  }

  lemma NextDataPushed(t: Tracker)
    ensures var p := NextData(t);
            HEADER_BYTES <= |p| <= MAX_PACKET_BYTES && Judge(t, Packet(HeaderOf(p), |p|, true)).Pushed?
  {
    var msgs: seq<bytes> := [[]];
    PacketRoundTrip(seq(10, _ => 0), t.nextExpected, 1, msgs);
    assert Body(msgs) == Frame(msgs[0]) + Body(msgs[1..]);
  }

  /** The choice that lets every step of the network thread succeed. */
  function Smooth(t: Tracker): (c: Choice) {
    Choice(false, Got(NextData(t)), false)
  }

  /** The network thread is at the top of its loop. */
  ghost predicate Idle(s: Pipe) {
    Inv(s) && s.net.Acquiring? && s.pool.stages[NET].Outside? && !s.stop
  }

  /** Nothing has changed but what the network thread does by itself. */
  ghost predicate SameMatcher(s: Pipe, s': Pipe) {
    && s'.matcher == s.matcher && s'.stop == s.stop && s'.ring.popped == s.ring.popped
    && s'.ring.consumer == s.ring.consumer && |s'.ring.buffer| == |s.ring.buffer|
  }

  /** One turn of the network thread that touches no packet. */
  ghost predicate SameRing(s: Pipe, s': Pipe) {
    Inv(s') && s'.ring == s.ring && s'.tracker == s.tracker && s'.matcher == s.matcher && s'.stop == s.stop
  }

  lemma LoadTurn(s: Pipe, c: Choice)
    requires Idle(s) && s.pool.free != []
    ensures var s' := NetTurnOf(s, c);
            && SameRing(s, s') && s'.net.Acquiring? && s'.pool.free == s.pool.free
            && s'.pool.freeHead == s.pool.freeHead
            && s'.pool.stages[NET] == Pools.AcquireLoaded(s.pool.freeHead)
  {
    NetKeeps(s, c);
    assert s.pool.freeHead == s.pool.free[0] < |s.pool.owner|;
  }

  lemma LinkTurn(s: Pipe, c: Choice)
    requires Inv(s) && s.net.Acquiring? && s.pool.stages[NET].AcquireLoaded?
    requires s.pool.freeHead == s.pool.stages[NET].head
    ensures var s' := NetTurnOf(s, c);
            && SameRing(s, s') && s'.net.Acquiring? && s'.pool.free == s.pool.free
            && s'.pool.freeHead == s.pool.freeHead
            && s'.pool.stages[NET].AcquireRead? && s'.pool.stages[NET].head == s.pool.freeHead
  {
    NetKeeps(s, c);
  }

  lemma SwapTurn(s: Pipe, c: Choice)
    requires Inv(s) && s.net.Acquiring? && s.pool.stages[NET].AcquireRead? && !c.spurious
    requires s.pool.freeHead == s.pool.stages[NET].head && s.pool.free != []
    ensures var s' := NetTurnOf(s, c);
            SameRing(s, s') && s'.net.Receiving? && s'.pool.free == s.pool.free[1..]
  {
    NetKeeps(s, c);
  }

  lemma AcquireOne(s: Pipe) returns (s': Pipe)
    requires Idle(s) && s.pool.free != []
    ensures Inv(s') && Reaches(s, s') && s'.net.Receiving? && s'.ring == s.ring && s'.pool.free == s.pool.free[1..]
    ensures SameMatcher(s, s')
  {
    var c := Smooth(s.tracker);
    var s1, s2, s3 := ThreeTurns(s, NetTurn(c));
    LoadTurn(s, c);
    LinkTurn(s1, c);
    SwapTurn(s2, c);
    s' := s3;
  }

  lemma ReceiveOne(s: Pipe) returns (s': Pipe)
    requires Inv(s) && s.net.Receiving?
    ensures Inv(s') && Reaches(s, s') && s'.net.Pushing? && s'.ring == s.ring && s'.pool == s.pool
    ensures SameMatcher(s, s')
  {
    var turn := NetTurn(Smooth(s.tracker));
    OneTurn(s, turn);
    s' := TakeTurn(s, turn);
    ReceivePushed(s);
  }

  lemma ReceivePushed(s: Pipe)
    requires Inv(s) && s.net.Receiving?
    ensures var s' := ReceiveTurn(s, Got(NextData(s.tracker)));
            s'.net.Pushing? && s'.ring == s.ring && s'.pool == s.pool && s'.matcher == s.matcher && s'.stop == s.stop
  {
    NextDataPushed(s.tracker);
  }

  lemma TailTurn(s: Pipe, c: Choice)
    requires Inv(s) && s.net.Pushing? && s.ring.producer.Ready?
    ensures var s' := NetTurnOf(s, c);
            && Inv(s') && s'.net == s.net && s'.pool == s.pool && SameMatcher(s, s')
            && s'.ring.producer.TailLoaded? && s'.ring.pushed == s.ring.pushed
  {
    NetKeeps(s, c);
  }

  lemma HeadTurn(s: Pipe, c: Choice)
    requires Inv(s) && s.net.Pushing? && s.ring.producer.TailLoaded? && Rings.InFlight(s.ring) + 1 < |s.ring.buffer|
    ensures var s' := NetTurnOf(s, c);
            && Inv(s') && s'.net == s.net && s'.pool == s.pool && SameMatcher(s, s')
            && s'.ring.producer.RoomSeen? && s'.ring.pushed == s.ring.pushed
  {
    NetKeeps(s, c);
    Rings.FullSeen(s.ring);
  }

  lemma WriteTurn(s: Pipe, c: Choice)
    requires Inv(s) && s.net.Pushing? && s.ring.producer.RoomSeen?
    ensures var s' := NetTurnOf(s, c);
            && Inv(s') && s'.net == s.net && s'.pool == s.pool && SameMatcher(s, s')
            && s'.ring.producer.Written? && s'.ring.pushed == s.ring.pushed
  {
    NetKeeps(s, c);
  }

  lemma StoreTurn(s: Pipe, c: Choice)
    requires Inv(s) && s.net.Pushing? && s.ring.producer.Written?
    ensures var s' := NetTurnOf(s, c);
            && Inv(s') && s'.net.Acquiring? && s'.pool.stages[NET].Outside? && s'.pool.free == s.pool.free
            && SameMatcher(s, s') && s'.ring.pushed == s.ring.pushed + [s.net.slot]
  {
    NetKeeps(s, c);
  }

  lemma PushOne(s: Pipe) returns (s': Pipe)
    requires Inv(s) && s.net.Pushing? && s.ring.producer.Ready? && Rings.InFlight(s.ring) + 1 < |s.ring.buffer|
    ensures Inv(s') && Reaches(s, s') && s'.net.Acquiring? && s'.pool.stages[NET].Outside?
    ensures s'.pool.free == s.pool.free && s'.ring.pushed == s.ring.pushed + [s.net.slot] && SameMatcher(s, s')
  {
    var c := Smooth(s.tracker);
    var s0 := TakeTurn(s, NetTurn(c));
    OneTurn(s, NetTurn(c));
    TailTurn(s, c);
    var s1, s2, s3 := ThreeTurns(s0, NetTurn(c));
    HeadTurn(s0, c);
    WriteTurn(s1, c);
    StoreTurn(s2, c);
    ReachesOn(s, s0, s3);
    s' := s3;
  }

  /** One more slot in the ring. */
  lemma SendOne(s: Pipe) returns (s': Pipe)
    requires Idle(s) && s.pool.free != [] && Rings.InFlight(s.ring) + 1 < |s.ring.buffer|
    ensures Idle(s') && Reaches(s, s') && s'.pool.free == s.pool.free[1..] && SameMatcher(s, s')
    ensures |s'.ring.pushed| == |s.ring.pushed| + 1 && s'.ring.pushed[|s.ring.pushed|] != INVALID
  {
    var s1 := AcquireOne(s);
    var s2 := ReceiveOne(s1);
    ReachesOn(s, s1, s2);
    s' := PushOne(s2);
    ReachesOn(s, s2, s');
  }

  /** All free slots into the ring, if it has the room. */
  lemma {:induction false} SendAll(s: Pipe) returns (s': Pipe)
    requires Idle(s) && Rings.InFlight(s.ring) + |s.pool.free| < |s.ring.buffer|
    ensures Idle(s') && Reaches(s, s') && s'.pool.free == []
    decreases |s.pool.free|
  {
    if s.pool.free == [] {
      s' := s;
      assert Run(s, []) == s;
    } else {
      var s1 := SendOne(s);
      s' := SendAll(s1);
      ReachesOn(s, s1, s');
    }
  }

  /** Nothing has changed but what the matcher does by itself. */
  ghost predicate SameNet(s: Pipe, s': Pipe)
    requires Inv(s) && Inv(s')
  {
    && s'.net == s.net && s'.stop == s.stop && s'.pool.free == s.pool.free && s'.pool.stages[NET] == s.pool.stages[NET]
    && s'.ring.pushed == s.ring.pushed && |s'.ring.buffer| == |s.ring.buffer|
  }

  /** Something to pop, and it is a slot. */
  ghost predicate Loaded(s: Pipe) {
    && Inv(s) && s.matcher.Popping? && |s.ring.popped| < |s.ring.pushed|
    && s.ring.pushed[|s.ring.popped|] != INVALID
  }

  lemma PopHeadTurn(s: Pipe, c: Choice)
    requires Loaded(s) && s.ring.consumer.Waiting?
    ensures var s' := MatcherTurnOf(s, c);
            Loaded(s') && SameNet(s, s') && s'.ring.popped == s.ring.popped && s'.ring.consumer.HeadLoaded?
  {
    MatcherKeeps(s, c);
  }

  lemma PopTailTurn(s: Pipe, c: Choice)
    requires Loaded(s) && s.ring.consumer.HeadLoaded?
    ensures var s' := MatcherTurnOf(s, c);
            Loaded(s') && SameNet(s, s') && s'.ring.popped == s.ring.popped && s'.ring.consumer.ItemSeen?
  {
    MatcherKeeps(s, c);
    Rings.EmptySeen(s.ring);
  }

  lemma PopReadTurn(s: Pipe, c: Choice)
    requires Loaded(s) && s.ring.consumer.ItemSeen?
    ensures var s' := MatcherTurnOf(s, c);
            Loaded(s') && SameNet(s, s') && s'.ring.popped == s.ring.popped && s'.ring.consumer.ItemRead?
  {
    MatcherKeeps(s, c);
  }

  lemma PopStoreTurn(s: Pipe, c: Choice)
    requires Loaded(s) && s.ring.consumer.ItemRead?
    ensures var s' := MatcherTurnOf(s, c);
            Inv(s') && SameNet(s, s') && |s'.ring.popped| == |s.ring.popped| + 1
  {
    assert s.ring.consumer.item == s.ring.pushed[|s.ring.popped|];
    PopKeeps(s, c.checkStop);
    PopChanges(s, c.checkStop);
  }

  lemma PopChanges(s: Pipe, checkStop: bool)
    requires Inv(s) && s.matcher.Popping? && s.ring.consumer.ItemRead? && s.ring.consumer.item != INVALID
    ensures var s' := PopTurn(s, checkStop);
            && s'.stop == s.stop && s'.pool.free == s.pool.free && s'.pool.stages == s.pool.stages
            && |s'.ring.popped| == |s.ring.popped| + 1
  {
  }

  /** The matcher takes one slot and keeps reading it. */
  lemma TakeOne(s: Pipe) returns (s': Pipe)
    requires Loaded(s) && s.ring.consumer.Waiting?
    ensures Inv(s') && Reaches(s, s') && SameNet(s, s') && |s'.ring.popped| == |s.ring.popped| + 1
  {
    var c := Smooth(s.tracker);
    var s0 := TakeTurn(s, MatcherTurn(c));
    OneTurn(s, MatcherTurn(c));
    PopHeadTurn(s, c);
    var s1, s2, s3 := ThreeTurns(s0, MatcherTurn(c));
    PopTailTurn(s0, c);
    PopReadTurn(s1, c);
    PopStoreTurn(s2, c);
    ReachesOn(s, s0, s3);
    s' := s3;
  }

  /** With no slot free, the next acquire gives up. */
  lemma GiveUp(s: Pipe) returns (s': Pipe)
    requires Idle(s) && s.pool.free == []
    ensures Inv(s') && Reaches(s, s') && s'.net.ReceivingScratch?
  {
    OneTurn(s, NetTurn(Smooth(s.tracker)));
    s' := TakeTurn(s, NetTurn(Smooth(s.tracker)));
  }

  /** One slot with the matcher, all others in the ring. */
  lemma Starves(memory: seq<bytes>, buffer: seq<uint32>) returns (s': Pipe)
    requires CanStart(memory, buffer) && 1 < |buffer| && |memory| <= |buffer|
    ensures Reaches(Start(memory, buffer), s') && s'.net.ReceivingScratch?
  {
    var s := Start(memory, buffer);
    var s1 := SendOne(s);
    var s2 := TakeOne(s1);
    ReachesOn(s, s1, s2);
    var s3 := SendAll(s2);
    ReachesOn(s, s2, s3);
    s' := GiveUp(s3);
    ReachesOn(s, s3, s');
  }

  /** Acquire can fail in some run exactly when there are at least two cells and no more slots than cells. */
  lemma StarvesIff(memory: seq<bytes>, buffer: seq<uint32>)
    requires CanStart(memory, buffer)
    ensures (exists turns :: Run(Start(memory, buffer), turns).net.ReceivingScratch?)
       <==> 1 < |buffer| && |memory| <= |buffer|
  {
    var s := Start(memory, buffer);
    if 1 < |buffer| && |memory| <= |buffer| {
      var s' := Starves(memory, buffer);
      var turns :| Run(s, turns) == s';
      assert Run(s, turns).net.ReceivingScratch?;
    } else {
      forall turns ensures !Run(s, turns).net.ReceivingScratch? {
        NeverStarved(s, turns);
      }
    }
  }
}
