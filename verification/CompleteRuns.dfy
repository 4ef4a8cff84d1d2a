/**
  A run that loses nothing exists exactly when the ring has two cells or more. The schedule is the
  obvious one: the matching thread runs whenever it has something to do, the network thread
  otherwise, and each packet of the plan arrives once.
 */
module CompleteRuns {
  import opened Words
  import opened MoldUdp64
  import opened FeedHandlers
  import opened Replayer
  import opened Pipelines
  import opened PipelineLaws
  import opened LosslessLaws
  import opened UdpLaws

  // ---- The schedule ----

  /** The matching thread has nothing to do. */
  predicate Free(s: Pipe) {
    s.matcher.Popping? && |s.ring.popped| == |s.ring.pushed| && s.ring.consumer.Waiting?
  }

  function Smooth(data: bytes): (c: Choice) {
    Choice(false, Got(data), false)
  }

  function NextTurn(s: Pipe, data: bytes): (turn: Turn) {
    if Free(s) then NetTurn(Smooth(data)) else MatcherTurn(Smooth(data))
  }

  // ---- What the schedule keeps ----

  /** A snapshot of the free list's head is up to date. */
  predicate Current(stage: Pools.Stage, freeHead: uint32) {
    stage.Outside? || stage.head == freeHead
  }

  /** Where the network thread stands after m of n packets. */
  ghost predicate NetPaced(net: Net, m: nat, n: nat, ended: bool) {
    match net
    case Acquiring => m < n
    case Receiving(_) => m < n
    case ReceivingScratch => false
    case Pushing(_) => m < n
    case PushingEnd => true
    case Releasing(_, after) => after.SendEnd?
    case NetDone => ended
  }

  /** The network thread is not in the middle of anything. */
  ghost predicate AtRest(s: Pipe)
    requires |s.pool.stages| == 3
  {
    (s.net.Acquiring? && s.pool.stages[NET].Outside?) || s.net.NetDone?
  }

  ghost predicate Paced(s: Pipe, m: nat, n: nat)
    requires |s.pool.stages| == 3
  {
    && (Free(s) || AtRest(s)) && (s.ring.consumer.Waiting? || |s.ring.popped| != |s.ring.pushed|)
    && Current(s.pool.stages[NET], s.pool.freeHead) && Current(s.pool.stages[MATCHER], s.pool.freeHead)
    && NetPaced(s.net, m, n, INVALID in s.ring.pushed)
  }

  /** The first m packets of the plan have arrived, once each, and nothing is lost. */
  ghost predicate OnTrack(s: Pipe, plan: seq<Datagram>, m: nat)
    requires plan != []
  {
    && Inv(s) && |s.ring.buffer| > 1 && |s.pool.owner| > 0 && m <= |plan| && s.arrived == Wires(plan, m)
    && s.tracker.stats.packetsDropped == 0 && Lossless(s, plan, m)
    && Paced(s, m, |plan|)
  }

  // ---- How much is left to do ----

  /** Steps of the network thread to its next receive, or to its end. */
  function NetLeft(net: Net, stage: Pools.Stage, producer: Rings.Producer<uint32>): (n: nat) {
    match net
    case Acquiring => if stage.AcquireLoaded? then 3 else if stage.AcquireRead? then 2 else 4
    case Receiving(_) => 1
    case ReceivingScratch => 0
    case Pushing(_) => 5 + PushLeft(producer)
    case PushingEnd => 1 + PushLeft(producer)
    case Releasing(_, _) => 6 + ReleaseLeft(stage)
    case NetDone => 0
  }

  function PushLeft(producer: Rings.Producer<uint32>): (n: nat) {
    match producer
    case Ready => 3
    case TailLoaded(_, _) => 2
    case RoomSeen(_, _, _) => 1
    case Written(_, _) => 0
  }

  function ReleaseLeft(stage: Pools.Stage): (n: nat) {
    if stage.ReleaseLinked? then 1 else if stage.ReleaseLoaded? then 2 else 3
  }

  /** Two for each slot in the ring, one for the slot the matching thread has. */
  function Backlog(s: Pipe): (n: int) {
    2 * Rings.InFlight(s.ring) + if s.matcher.Reading? || s.matcher.Returning? then 1 else 0
  }

  /** Steps of the matching thread until the backlog shrinks. */
  function MatcherLeft(s: Pipe): (n: int)
    requires |s.pool.stages| == 3
  {
    match s.matcher
    case Popping => PopLeft(s.ring.consumer)
    case Reading(slot, cursor) => 4 + if slot < |s.memory| then |s.memory[slot]| - cursor else 0
    case Returning(_) => ReleaseLeft(s.pool.stages[MATCHER])
    case MatcherDone => 0
  }

  function PopLeft(consumer: Rings.Consumer<uint32>): (n: nat) {
    match consumer
    case Waiting => 3
    case HeadLoaded(_) => 2
    case ItemSeen(_) => 1
    case ItemRead(_, _) => 0
  }

  // ---- The network thread's turns ----

  /** With both threads idle every slot is free. */
  lemma AllFree(s: Pipe)
    requires Inv(s) && Free(s) && s.net.Acquiring? && |s.pool.owner| > 0
    ensures s.pool.freeHead != INVALID
  {
    assert Unread(s.ring.pushed, |s.ring.popped|) == [];
    assert s.pool.owner[0] == Pools.Listed;
  }

  /** The network thread has come nearer its next receive; nothing has arrived and nothing is dropped. */
  ghost predicate NetAdvances(s: Pipe, s': Pipe, m: nat, n: nat) {
    && |s.pool.stages| == |s'.pool.stages| == 3 && Paced(s', m, n)
    && s'.arrived == s.arrived && s'.tracker == s.tracker
    && NetLeft(s'.net, s'.pool.stages[NET], s'.ring.producer)
       < NetLeft(s.net, s.pool.stages[NET], s.ring.producer)
  }

  lemma AcquireAdvances(s: Pipe, c: Choice, m: nat, n: nat)
    requires Inv(s) && Paced(s, m, n) && Free(s) && s.net.Acquiring? && |s.pool.owner| > 0 && !c.spurious
    ensures NetAdvances(s, NetTurnOf(s, c), m, n)
  {
    AllFree(s);
  }

  lemma PushAdvances(s: Pipe, c: Choice, m: nat, n: nat)
    requires Inv(s) && Paced(s, m, n) && Free(s) && s.net.Pushing? && |s.ring.buffer| > 1
    ensures NetAdvances(s, NetTurnOf(s, c), m, n)
  {
    if s.ring.producer.TailLoaded? {
      Rings.FullSeen(s.ring);
    }
  }

  lemma PushEndAdvances(s: Pipe, c: Choice, m: nat, n: nat)
    requires Inv(s) && Paced(s, m, n) && Free(s) && s.net.PushingEnd? && |s.ring.buffer| > 1
    ensures NetAdvances(s, NetTurnOf(s, c), m, n)
  {
    if s.ring.producer.TailLoaded? {
      Rings.FullSeen(s.ring);
    }
  }

  lemma ReleaseAdvances(s: Pipe, c: Choice, m: nat, n: nat)
    requires Inv(s) && Paced(s, m, n) && Free(s) && s.net.Releasing? && !c.spurious
    ensures NetAdvances(s, NetTurnOf(s, c), m, n)
  {
  }

  /** Once it has ended, the matching thread is not idle. */
  lemma EndedBusy(s: Pipe)
    requires Inv(s) && Free(s)
    ensures INVALID !in s.ring.pushed
  {
    assert s.ring.popped == s.ring.pushed;
  }

  /** Every turn of the network thread but the receive. */
  lemma QuietAdvances(s: Pipe, c: Choice, m: nat, n: nat)
    requires Inv(s) && Paced(s, m, n) && Free(s) && |s.pool.owner| > 0 && |s.ring.buffer| > 1
    requires !s.net.Receiving? && !c.spurious
    ensures Inv(NetTurnOf(s, c)) && NetAdvances(s, NetTurnOf(s, c), m, n)
  {
    NetKeeps(s, c);
    EndedBusy(s);
    match s.net
    case Acquiring => AcquireAdvances(s, c, m, n);
    case Pushing(_) => PushAdvances(s, c, m, n);
    case PushingEnd => PushEndAdvances(s, c, m, n);
    case Releasing(_, _) => ReleaseAdvances(s, c, m, n);
  }

  /** Data packets go to the ring, the end marker to the sentinel. */
  lemma PlanRouted(t: Tracker, plan: seq<Datagram>, all: seq<bytes>, m: nat, slot: uint32)
    requires Consecutive(plan) && Session(plan, all) && m < |plan| && Tracked(t, plan, m)
    ensures var p := Wire(plan[m]);
            && HEADER_BYTES <= |p| <= MAX_PACKET_BYTES
            && var a := Packet(HeaderOf(p), |p|, true);
               && Track(t, a).stats.packetsDropped == t.stats.packetsDropped
               && Routed(slot, Judge(t, a)) == if plan[m].End? then Releasing(slot, SendEnd) else Pushing(slot)
  {
    PlanPacket(plan, all, m);
    var p := Wire(plan[m]);
    TrackPlan(t, plan, m, m, Packet(HeaderOf(p), |p|, true));
  }

  lemma ReceiveChanges(s: Pipe, p: bytes)
    requires Inv(s) && s.net.Receiving? && HEADER_BYTES <= |p| <= MAX_PACKET_BYTES
    ensures var s', a := ReceiveTurn(s, Got(p)), Packet(HeaderOf(p), |p|, true);
            && s'.arrived == s.arrived + [p] && s'.pool == s.pool && s'.ring == s.ring && s'.matcher == s.matcher
            && s'.net == Routed(s.net.slot, Judge(s.tracker, a)) && s'.tracker == Track(s.tracker, a)
  {
  }

  lemma RoutedPaced(s: Pipe, s': Pipe, m: nat, n: nat, end: bool)
    requires |s.pool.stages| == 3 && s.net.Receiving? && Paced(s, m, n) && (end || m + 1 < n)
    requires s'.pool == s.pool && s'.ring == s.ring && s'.matcher == s.matcher
    requires s'.net == if end then Releasing(s.net.slot, SendEnd) else Pushing(s.net.slot)
    ensures Paced(s', m + 1, n)
  {
  }

  lemma DataBeforeEnd(plan: seq<Datagram>, m: nat)
    requires Consecutive(plan) && m < |plan| && !plan[m].End?
    ensures m + 1 < |plan|
  {
  }

  lemma ReceivePaced(s: Pipe, plan: seq<Datagram>, all: seq<bytes>, m: nat)
    requires Consecutive(plan) && Session(plan, all) && m < |plan| && Tracked(s.tracker, plan, m)
    requires Inv(s) && s.net.Receiving? && Paced(s, m, |plan|)
    ensures var s' := ReceiveTurn(s, Got(Wire(plan[m])));
            && s'.arrived == s.arrived + [Wire(plan[m])] && |s'.pool.stages| == 3 && Paced(s', m + 1, |plan|)
            && s'.tracker.stats.packetsDropped == s.tracker.stats.packetsDropped
  {
    PlanRouted(s.tracker, plan, all, m, s.net.slot);
    ReceiveChanges(s, Wire(plan[m]));
    if !plan[m].End? {
      DataBeforeEnd(plan, m);
    }
    RoutedPaced(s, ReceiveTurn(s, Got(Wire(plan[m]))), m, |plan|, plan[m].End?);
  }

  /** The next packet of the plan arrives. */
  lemma ReceiveAdvances(s: Pipe, plan: seq<Datagram>, all: seq<bytes>, m: nat)
    requires Consecutive(plan) && Session(plan, all) && OnTrack(s, plan, m) && s.net.Receiving?
    ensures m < |plan| && OnTrack(ReceiveTurn(s, Got(Wire(plan[m]))), plan, m + 1)
  {
    PlanPacket(plan, all, m);
    ReceiveLossless(s, Got(Wire(plan[m])), plan, all, m, m);
    ReceivePaced(s, plan, all, m);
  }

  // ---- The matching thread's turns ----

  /** The matching thread has come nearer being idle; the network thread has not moved. */
  ghost predicate MatcherAdvances(s: Pipe, s': Pipe, m: nat, n: nat) {
    && |s.pool.stages| == |s'.pool.stages| == 3 && Paced(s', m, n)
    && s'.net == s.net && s'.pool.stages[NET] == s.pool.stages[NET] && s'.ring.producer == s.ring.producer
    && (Backlog(s') < Backlog(s) || (Backlog(s') == Backlog(s) && MatcherLeft(s') < MatcherLeft(s)))
  }

  lemma PopStoreAdvances(s: Pipe, c: Choice, m: nat, n: nat)
    requires Inv(s) && Paced(s, m, n) && !Free(s) && s.matcher.Popping? && s.ring.consumer.ItemRead?
    ensures MatcherAdvances(s, MatcherTurnOf(s, c), m, n)
  {
  }

  lemma PopAdvances(s: Pipe, c: Choice, m: nat, n: nat)
    requires Inv(s) && Paced(s, m, n) && !Free(s) && s.matcher.Popping?
    ensures MatcherAdvances(s, MatcherTurnOf(s, c), m, n)
  {
    if s.ring.consumer.ItemRead? {
      PopStoreAdvances(s, c, m, n);
    } else if s.ring.consumer.HeadLoaded? {
      Rings.EmptySeen(s.ring);
    }
  }

  lemma ReadAdvances(s: Pipe, c: Choice, m: nat, n: nat)
    requires Inv(s) && Paced(s, m, n) && s.matcher.Reading?
    ensures MatcherAdvances(s, MatcherTurnOf(s, c), m, n)
  {
  }

  lemma ReturnAdvances(s: Pipe, c: Choice, m: nat, n: nat)
    requires Inv(s) && Paced(s, m, n) && s.matcher.Returning? && !c.spurious
    ensures MatcherAdvances(s, MatcherTurnOf(s, c), m, n)
  {
  }

  lemma BusyAdvances(s: Pipe, c: Choice, m: nat, n: nat)
    requires Inv(s) && Paced(s, m, n) && !Free(s) && !s.matcher.MatcherDone? && !c.spurious
    ensures MatcherAdvances(s, MatcherTurnOf(s, c), m, n)
  {
    match s.matcher
    case Popping => PopAdvances(s, c, m, n);
    case Reading(_, _) => ReadAdvances(s, c, m, n);
    case Returning(_) => ReturnAdvances(s, c, m, n);
  }

  // ---- The whole run ----

  function PacketAt(plan: seq<Datagram>, m: nat): (p: bytes) {
    if m < |plan| then Wire(plan[m]) else []
  }

  /** The scheduled turn stays on track and leaves less to do. */
  ghost predicate Nearer(s: Pipe, m: nat, s': Pipe, m': nat, plan: seq<Datagram>)
    requires plan != []
  {
    && OnTrack(s, plan, m) && OnTrack(s', plan, m')
    && (m' == m + 1 || (m' == m && (NetAdvances(s, s', m, |plan|) || MatcherAdvances(s, s', m, |plan|))))
  }

  lemma NetNearer(s: Pipe, plan: seq<Datagram>, m: nat)
    requires plan != [] && OnTrack(s, plan, m) && Free(s) && !s.net.Receiving?
    ensures Nearer(s, m, NetTurnOf(s, Smooth(PacketAt(plan, m))), m, plan)
  {
    var c := Smooth(PacketAt(plan, m));
    QuietAdvances(s, c, m, |plan|);
    NetQuietLossless(s, c, plan, m);
  }

  lemma MatcherNearer(s: Pipe, plan: seq<Datagram>, m: nat)
    requires plan != [] && OnTrack(s, plan, m) && !Free(s) && !s.matcher.MatcherDone?
    ensures Nearer(s, m, MatcherTurnOf(s, Smooth(PacketAt(plan, m))), m, plan)
  {
    var c := Smooth(PacketAt(plan, m));
    BusyAdvances(s, c, m, |plan|);
    MatcherLossless(s, c, plan, m);
  }

  lemma TurnNearer(s: Pipe, plan: seq<Datagram>, all: seq<bytes>, m: nat) returns (m': nat)
    requires Consecutive(plan) && Session(plan, all) && OnTrack(s, plan, m) && !s.matcher.MatcherDone?
    ensures Nearer(s, m, TakeTurn(s, NextTurn(s, PacketAt(plan, m))), m', plan)
  {
    m' := m;
    if !Free(s) {
      MatcherNearer(s, plan, m);
    } else if s.net.Receiving? {
      ReceiveAdvances(s, plan, all, m);
      m' := m + 1;
    } else {
      NetNearer(s, plan, m);
    }
  }

  /** Following the schedule, the matching thread ends. */
  lemma {:induction false} Finish(s: Pipe, plan: seq<Datagram>, all: seq<bytes>, m: nat)
    returns (turns: seq<Turn>, m': nat)
    requires Consecutive(plan) && Session(plan, all) && OnTrack(s, plan, m)
    ensures OnTrack(Run(s, turns), plan, m') && Run(s, turns).matcher.MatcherDone?
    decreases |plan| - m, NetLeft(s.net, s.pool.stages[NET], s.ring.producer), Backlog(s), MatcherLeft(s)
  {
    if s.matcher.MatcherDone? {
      turns, m' := [], m;
    } else {
      var turn := NextTurn(s, PacketAt(plan, m));
      var m1 := TurnNearer(s, plan, all, m);
      var rest;
      rest, m' := Finish(TakeTurn(s, turn), plan, all, m1);
      turns := [turn] + rest;
      assert turns[0] == turn && turns[1..] == rest;
    }
  }

  /** Each packet once, in order. */
  function UpTo(m: nat): (rx: seq<nat>)
    ensures |rx| == m
  {
    if m == 0 then [] else UpTo(m - 1) + [m - 1]
  }

  lemma {:induction false} UpToNew(m: nat)
    ensures NextNew(UpTo(m)) == m
  {
    if m > 0 {
      UpToNew(m - 1);
    }
  }

  lemma {:induction false} UpToPrefix(m: nat, i: nat)
    requires i <= m
    ensures UpTo(m)[..i] == UpTo(i) && (i < m ==> UpTo(m)[i] == i)
  {
    if i < m {
      UpToPrefix(m - 1, i);
    }
  }

  lemma InOrder(plan: seq<Datagram>, m: nat)
    requires m <= |plan|
    ensures Delivered(Wires(plan, m), plan, UpTo(m))
  {
    forall i {:trigger DeliveredAt(Wires(plan, m), plan, UpTo(m), i)} | 0 <= i < m
      ensures DeliveredAt(Wires(plan, m), plan, UpTo(m), i)
    {
      WireAt(plan, m, i);
      UpToPrefix(m, i);
      UpToNew(i);
    }
  }

  lemma {:induction false} OneCellRuns(s: Pipe, turns: seq<Turn>)
    requires OneCell(s)
    ensures OneCell(Run(s, turns))
    decreases |turns|
  {
    if turns != [] {
      TurnOneCell(s, turns[0]);
      OneCellRuns(TakeTurn(s, turns[0]), turns[1..]);
    }
  }

  lemma StartOnTrack(memory: seq<bytes>, buffer: seq<uint32>, plan: seq<Datagram>)
    requires CanStart(memory, buffer) && |buffer| > 1 && plan != []
    ensures OnTrack(Start(memory, buffer), plan, 0)
  {
  }

  /** A file whose messages all fit gets through whole in some run exactly when the ring has two cells or more. */
  lemma CompletesIff(memory: seq<bytes>, buffer: seq<uint32>, msgs: seq<bytes>, maxPerPacket: nat)
    requires CanStart(memory, buffer) && Sends(msgs, maxPerPacket) && FitCount(msgs) == |msgs|
    ensures (exists turns, rx :: Complete(Run(Start(memory, buffer), turns), msgs, maxPerPacket, rx)) <==> |buffer| > 1
  {
    var s := Start(memory, buffer);
    if |buffer| > 1 {
      var plan := Plan(msgs, maxPerPacket, 1);
      PlanFacts(msgs, maxPerPacket);
      StartOnTrack(memory, buffer, plan);
      var turns, m := Finish(s, plan, msgs, 0);
      InOrder(plan, m);
      assert Complete(Run(s, turns), msgs, maxPerPacket, UpTo(m));
    } else {
      forall turns ensures !Run(s, turns).matcher.MatcherDone? {
        OneCellRuns(s, turns);
      }
    }
  }
}
