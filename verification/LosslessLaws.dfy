/**
  When nothing is lost: every packet of the session arrives, first copies in order, and none is
  dropped for want of room. Then a run that ends has processed exactly the session.
 */
module LosslessLaws {
  import opened Words
  import opened MoldUdp64
  import opened FeedHandlers
  import opened Replayer
  import opened Pipelines
  import opened SessionLaws

  // ---- A delivery without loss ----

  /** The first packet of the plan not yet delivered. */
  function NextNew(rx: seq<nat>): (m: nat) {
    if rx == [] then 0
    else
      var m, j := NextNew(rx[..|rx| - 1]), rx[|rx| - 1];
      if j >= m then j + 1 else m
  }

  ghost predicate DeliveredAt(arrived: seq<bytes>, plan: seq<Datagram>, rx: seq<nat>, i: nat)
    requires i < |rx| == |arrived|
  {
    rx[i] < |plan| && arrived[i] == Wire(plan[rx[i]]) && rx[i] <= NextNew(rx[..i])
  }

  /** Arrival i is packet rx[i] of the plan: the next new one, or a repeat. */
  ghost predicate Delivered(arrived: seq<bytes>, plan: seq<Datagram>, rx: seq<nat>) {
    && |rx| == |arrived|
    && (forall i {:trigger DeliveredAt(arrived, plan, rx, i)} | 0 <= i < |rx| :: DeliveredAt(arrived, plan, rx, i))
  }

  lemma DeliveredPrefix(arrived: seq<bytes>, plan: seq<Datagram>, rx: seq<nat>, k: nat)
    requires Delivered(arrived, plan, rx) && k <= |rx|
    ensures Delivered(arrived[..k], plan, rx[..k])
  {
    forall i {:trigger DeliveredAt(arrived[..k], plan, rx[..k], i)} | 0 <= i < k
      ensures DeliveredAt(arrived[..k], plan, rx[..k], i)
    {
      assert DeliveredAt(arrived, plan, rx, i);
      assert rx[..k][..i] == rx[..i];
    }
  }

  // ---- The plan ----

  /** Data packets with consecutive numbers from 1, then the end marker. */
  ghost predicate Consecutive(plan: seq<Datagram>) {
    && plan != [] && plan[|plan| - 1].End? && plan[0].seqNo == 1
    && (forall k {:trigger Follows(plan, k)} | 0 <= k < |plan| - 1 :: Follows(plan, k))
  }

  ghost predicate Follows(plan: seq<Datagram>, k: nat)
    requires k + 1 < |plan|
  {
    plan[k].Data? && plan[k + 1].seqNo == plan[k].seqNo + |plan[k].batch|
  }

  lemma {:induction false} PlanAscends(plan: seq<Datagram>, j: nat, k: nat)
    requires Consecutive(plan) && j < k < |plan|
    ensures plan[j].Data? && plan[j].seqNo + |plan[j].batch| <= plan[k].seqNo
    decreases k
  {
    assert Follows(plan, j);
    if j + 1 < k {
      PlanAscends(plan, j, k - 1);
      assert Follows(plan, k - 1);
    }
  }

  lemma {:induction false} NumberedConsecutive(batches: seq<seq<bytes>>, seqNo: nat)
    ensures var ds := Numbered(batches, seqNo) + [End(seqNo + |Flatten(batches)|)];
            ds[0].seqNo == seqNo && forall k {:trigger Follows(ds, k)} | 0 <= k < |ds| - 1 :: Follows(ds, k)
    decreases |batches|
  {
    var ds := Numbered(batches, seqNo) + [End(seqNo + |Flatten(batches)|)];
    if batches != [] {
      var b := batches[0];
      NumberedConsecutive(batches[1..], seqNo + |b|);
      var rest := Numbered(batches[1..], seqNo + |b|) + [End(seqNo + |b| + |Flatten(batches[1..])|)];
      assert ds == [Data(seqNo, b)] + rest;
      forall k {:trigger Follows(ds, k)} | 0 <= k < |ds| - 1 ensures Follows(ds, k) {
        assert k > 0 ==> Follows(rest, k - 1);
      }
    }
  }

  /** The encoded packets before packet k. */
  ghost function Wires(plan: seq<Datagram>, k: nat): (ps: seq<bytes>)
    requires k <= |plan|
    ensures |ps| == k
  {
    if k == 0 then [] else Wires(plan, k - 1) + [Wire(plan[k - 1])]
  }

  // ---- Nothing lost on the way ----

  function DataCount(plan: seq<Datagram>, m: nat): (k: nat)
    requires plan != []
  {
    if m < |plan| then m else |plan| - 1
  }

  /** The tracker expects the next packet of the plan. */
  ghost predicate Tracked(t: Tracker, plan: seq<Datagram>, m: nat)
    requires plan != []
  {
    if m == 0 then !t.sessionInit else t.sessionInit && t.nextExpected == plan[DataCount(plan, m)].seqNo
  }

  /** The ring has been given exactly the packets delivered so far. */
  ghost predicate Collected(packets: seq<bytes>, pushing: Option<bytes>, ended: bool, plan: seq<Datagram>, m: nat)
    requires plan != []
  {
    if ended then m >= |plan| && packets == Wires(plan, |plan| - 1) + [[]]
    else packets + (if pushing.Some? then [pushing.value] else []) == Wires(plan, DataCount(plan, m))
  }

  /** Tracker and ring are exactly where m delivered packets of the plan put them. */
  ghost predicate SoFar(t: Tracker, packets: seq<bytes>, pushing: Option<bytes>, ended: bool, ending: bool,
                        plan: seq<Datagram>, m: nat)
    requires plan != []
  {
    && Tracked(t, plan, m) && Collected(packets, pushing, ended, plan, m)
    && (ending ==> m >= |plan|)
  }

  ghost predicate Lossless(s: Pipe, plan: seq<Datagram>, m: nat)
    requires Inv(s) && plan != []
  {
    SoFar(s.tracker, s.packets, PushedNext(s), INVALID in s.ring.pushed, Ending(s.net), plan, m)
  }

  /** What the tracker makes of a packet of the plan. */
  lemma TrackPlan(t: Tracker, plan: seq<Datagram>, m: nat, j: nat, a: Arrival)
    requires Consecutive(plan) && Tracked(t, plan, m) && j < |plan| && j <= m
    requires a.Packet? && a.fits && a.hdr.sequenceNumber == plan[j].seqNo
    requires a.hdr.messageCount == if plan[j].Data? then |plan[j].batch| else END_OF_SESSION
    requires plan[j].Data? ==> 0 < |plan[j].batch| < END_OF_SESSION && EndOf(a.hdr) < TWO_64
    ensures Judge(t, a) == (if plan[j].End? then Ended else if j < m then Duplicate else Pushed)
    ensures Tracked(Track(t, a), plan, if j == m then m + 1 else m)
  {
    var k := DataCount(plan, m);
    if j < k {
      PlanAscends(plan, j, k);
    } else if j + 1 < |plan| {
      assert Follows(plan, j);
    }
  }

  /** Everything a receiver sees of packet j. */
  lemma PlanPacket(plan: seq<Datagram>, all: seq<bytes>, j: nat)
    requires Consecutive(plan) && Session(plan, all) && j < |plan|
    ensures var p, d := Wire(plan[j]), plan[j];
            && HEADER_BYTES <= |p| <= MAX_PACKET_BYTES
            && HeaderOf(p).sequenceNumber == d.seqNo
            && HeaderOf(p).messageCount == (if d.Data? then |d.batch| else END_OF_SESSION)
            && (d.Data? ==> 0 < |d.batch| < END_OF_SESSION && EndOf(HeaderOf(p)) < TWO_64)
            && MessagesOf(p) == if d.Data? then d.batch else []
  {
    assert SliceAt(plan, all, j);
    WireRoundTrip(plan[j], all);
  }

  /** The next packet of the plan joins the collection; a repeat or the end marker leaves it. */
  lemma CollectNext(packets: seq<bytes>, plan: seq<Datagram>, m: nat, j: nat)
    requires Consecutive(plan) && Collected(packets, None, false, plan, m) && j < |plan| && j <= m
    ensures var pushing := if plan[j].Data? && j == m then Some(Wire(plan[j])) else None;
            Collected(packets, pushing, false, plan, if j == m then m + 1 else m)
  {
    if j + 1 < |plan| {
      assert Follows(plan, j);
    }
    if j == m && plan[j].Data? {
      assert Wires(plan, m + 1) == Wires(plan, m) + [Wire(plan[m])];
    }
  }

  /** Tracker and ring after one more packet of the plan. */
  lemma SoFarNext(t: Tracker, packets: seq<bytes>, plan: seq<Datagram>, m: nat, j: nat, a: Arrival)
    requires Consecutive(plan) && SoFar(t, packets, None, false, false, plan, m) && j < |plan| && j <= m
    requires a.Packet? && a.fits && a.hdr.sequenceNumber == plan[j].seqNo
    requires a.hdr.messageCount == if plan[j].Data? then |plan[j].batch| else END_OF_SESSION
    requires plan[j].Data? ==> 0 < |plan[j].batch| < END_OF_SESSION && EndOf(a.hdr) < TWO_64
    ensures var o := Judge(t, a);
            SoFar(Track(t, a), packets, if o.Pushed? then Some(Wire(plan[j])) else None, false, o.Ended?,
                  plan, if j == m then m + 1 else m)
  {
    TrackPlan(t, plan, m, j, a);
    CollectNext(packets, plan, m, j);
    if plan[j].End? {
      PlanEndLast(plan, j);
    }
  }

  lemma ReceiveLossless(s: Pipe, recv: Recv, plan: seq<Datagram>, all: seq<bytes>, m: nat, j: nat)
    requires Consecutive(plan) && Session(plan, all) && Inv(s) && Lossless(s, plan, m) && s.net.Receiving?
    requires recv.Got? && j < |plan| && j <= m && Clipped(recv.data) == Wire(plan[j])
    ensures Inv(ReceiveTurn(s, recv)) && Lossless(ReceiveTurn(s, recv), plan, if j == m then m + 1 else m)
  {
    ReceiveKeeps(s, recv);
    PlanPacket(plan, all, j);
    var p := Wire(plan[j]);
    SoFarNext(s.tracker, s.packets, plan, m, j, Packet(HeaderOf(p), |p|, true));
  }

  lemma PlanEndLast(plan: seq<Datagram>, j: nat)
    requires Consecutive(plan) && j < |plan| && plan[j].End?
    ensures j == |plan| - 1
  {
    assert j < |plan| - 1 ==> Follows(plan, j);
  }

  lemma PushLossless(s: Pipe, plan: seq<Datagram>, m: nat)
    requires plan != [] && Inv(s) && Lossless(s, plan, m) && s.net.Pushing?
    requires PushTurn(s).tracker.stats.packetsDropped == s.tracker.stats.packetsDropped
    ensures Inv(PushTurn(s)) && Lossless(PushTurn(s), plan, m)
  {
    PushKeeps(s);
  }

  lemma PushEndLossless(s: Pipe, plan: seq<Datagram>, m: nat)
    requires plan != [] && Inv(s) && Lossless(s, plan, m) && s.net.PushingEnd?
    ensures Inv(PushEndTurn(s)) && Lossless(PushEndTurn(s), plan, m)
  {
    PushEndKeeps(s);
    if s.ring.producer.Written? {
      EndLossless(s, plan, m);
    } else {
      SameFeedLossless(s, PushEndTurn(s), plan, m);
    }
  }

  /** The sentinel follows the whole plan. */
  lemma EndLossless(s: Pipe, plan: seq<Datagram>, m: nat)
    requires plan != [] && Inv(s) && Lossless(s, plan, m) && s.net.PushingEnd? && s.ring.producer.Written?
    requires Inv(PushEndTurn(s))
    ensures Lossless(PushEndTurn(s), plan, m)
  {
    assert s.packets + [] == s.packets;
  }

  /** Turns that receive, track and push nothing. */
  lemma SameFeedLossless(s: Pipe, s': Pipe, plan: seq<Datagram>, m: nat)
    requires plan != [] && Inv(s) && Lossless(s, plan, m) && Inv(s') && SameFeed(s, s')
    requires s'.net == s.net || (!s.net.Pushing? && !s'.net.Pushing? && (Ending(s'.net) ==> Ending(s.net)))
    ensures Lossless(s', plan, m)
  {
  }

  lemma AcquireLossless(s: Pipe, spurious: bool, plan: seq<Datagram>, m: nat)
    requires plan != [] && Inv(s) && Lossless(s, plan, m) && s.net.Acquiring?
    ensures Inv(AcquireTurn(s, spurious)) && Lossless(AcquireTurn(s, spurious), plan, m)
  {
    AcquireKeeps(s, spurious);
    SameFeedLossless(s, AcquireTurn(s, spurious), plan, m);
  }

  lemma ReleaseLossless(s: Pipe, spurious: bool, plan: seq<Datagram>, m: nat)
    requires plan != [] && Inv(s) && Lossless(s, plan, m) && s.net.Releasing?
    ensures Inv(ReleaseTurn(s, spurious)) && Lossless(ReleaseTurn(s, spurious), plan, m)
  {
    ReleaseKeeps(s, spurious);
    SameFeedLossless(s, ReleaseTurn(s, spurious), plan, m);
  }

  lemma NothingReceived(s: Pipe, recv: Recv, plan: seq<Datagram>, m: nat)
    requires plan != [] && Inv(s) && Lossless(s, plan, m) && s.net.Receiving? && !recv.Got?
    ensures Inv(ReceiveTurn(s, recv)) && Lossless(ReceiveTurn(s, recv), plan, m)
  {
    ReceiveKeeps(s, recv);
    SameFeedLossless(s, ReceiveTurn(s, recv), plan, m);
  }

  lemma NothingScratched(s: Pipe, recv: Recv, plan: seq<Datagram>, m: nat)
    requires plan != [] && Inv(s) && Lossless(s, plan, m) && s.net.ReceivingScratch?
    requires ScratchTurn(s, recv).tracker.stats.packetsDropped == s.tracker.stats.packetsDropped
    ensures Inv(ScratchTurn(s, recv)) && Lossless(ScratchTurn(s, recv), plan, m)
  {
    NetKeeps(s, Choice(false, recv, false));
    SameFeedLossless(s, ScratchTurn(s, recv), plan, m);
  }

  lemma MatcherLossless(s: Pipe, c: Choice, plan: seq<Datagram>, m: nat)
    requires plan != [] && Inv(s) && Lossless(s, plan, m)
    ensures Inv(MatcherTurnOf(s, c)) && Lossless(MatcherTurnOf(s, c), plan, m)
  {
    MatcherKeeps(s, c);
    SameFeedLossless(s, MatcherTurnOf(s, c), plan, m);
  }

  /** Turns of the network thread in which nothing arrives and nothing is dropped. */
  lemma NetQuietLossless(s: Pipe, c: Choice, plan: seq<Datagram>, m: nat)
    requires plan != [] && Inv(s) && Lossless(s, plan, m)
    requires NetTurnOf(s, c).arrived == s.arrived
    requires NetTurnOf(s, c).tracker.stats.packetsDropped == s.tracker.stats.packetsDropped
    ensures Inv(NetTurnOf(s, c)) && Lossless(NetTurnOf(s, c), plan, m)
  {
    match s.net
    case Acquiring => AcquireLossless(s, c.spurious, plan, m);
    case Receiving(_) => NothingReceived(s, c.recv, plan, m);
    case ReceivingScratch => NothingScratched(s, c.recv, plan, m);
    case Pushing(_) => PushLossless(s, plan, m);
    case PushingEnd => PushEndLossless(s, plan, m);
    case Releasing(_, _) => ReleaseLossless(s, c.spurious, plan, m);
    case NetDone =>
  }

  /** Datagrams arrive only in the receiving turn. */
  lemma ArrivesWhen(s: Pipe, turn: Turn)
    requires Inv(s) && TakeTurn(s, turn).arrived != s.arrived
    ensures turn.NetTurn? && s.net.Receiving? && turn.choice.recv.Got?
    ensures TakeTurn(s, turn).arrived == s.arrived + [Clipped(turn.choice.recv.data)]
  {
  }

  lemma ArrivalLossless(s: Pipe, turn: Turn, plan: seq<Datagram>, all: seq<bytes>, rx: seq<nat>)
    requires Consecutive(plan) && Session(plan, all) && Inv(s)
    requires Delivered(TakeTurn(s, turn).arrived, plan, rx) && TakeTurn(s, turn).arrived != s.arrived
    requires Lossless(s, plan, NextNew(rx[..|s.arrived|]))
    ensures Inv(TakeTurn(s, turn)) && Lossless(TakeTurn(s, turn), plan, NextNew(rx))
  {
    ArrivesWhen(s, turn);
    var n := |s.arrived|;
    assert DeliveredAt(TakeTurn(s, turn).arrived, plan, rx, n);
    assert rx[..|rx| - 1] == rx[..n];
    var m := NextNew(rx[..n]);
    assert NextNew(rx) == if rx[n] == m then m + 1 else m;
    ReceiveLossless(s, turn.choice.recv, plan, all, m, rx[n]);
  }

  lemma TurnLossless(s: Pipe, turn: Turn, plan: seq<Datagram>, all: seq<bytes>, rx: seq<nat>)
    requires Consecutive(plan) && Session(plan, all) && Inv(s)
    requires Delivered(TakeTurn(s, turn).arrived, plan, rx)
    requires TakeTurn(s, turn).tracker.stats.packetsDropped == s.tracker.stats.packetsDropped
    requires Lossless(s, plan, NextNew(rx[..|s.arrived|]))
    ensures Inv(TakeTurn(s, turn)) && Lossless(TakeTurn(s, turn), plan, NextNew(rx))
  {
    if TakeTurn(s, turn).arrived != s.arrived {
      ArrivalLossless(s, turn, plan, all, rx);
    } else {
      assert rx[..|s.arrived|] == rx;
      if turn.NetTurn? {
        NetQuietLossless(s, turn.choice, plan, NextNew(rx));
      } else {
        MatcherLossless(s, turn.choice, plan, NextNew(rx));
      }
    }
  }

  /** The first turn of a run, with the arrivals it accounts for. */
  lemma FirstLossless(s: Pipe, turn: Turn, plan: seq<Datagram>, all: seq<bytes>, arrived: seq<bytes>, rx: seq<nat>)
    requires Consecutive(plan) && Session(plan, all) && Inv(s)
    requires TakeTurn(s, turn).arrived <= arrived && Delivered(arrived, plan, rx)
    requires TakeTurn(s, turn).tracker.stats.packetsDropped == s.tracker.stats.packetsDropped
    requires |s.arrived| <= |rx| && Lossless(s, plan, NextNew(rx[..|s.arrived|]))
    ensures var s' := TakeTurn(s, turn);
            Inv(s') && Lossless(s', plan, NextNew(rx[..|s'.arrived|]))
  {
    var s' := TakeTurn(s, turn);
    var n := |s'.arrived|;
    DeliveredPrefix(arrived, plan, rx, n);
    Prefixes(arrived, s'.arrived, rx, |s.arrived|);
    TurnLossless(s, turn, plan, all, rx[..n]);
  }

  lemma Prefixes(arrived: seq<bytes>, now: seq<bytes>, rx: seq<nat>, k: nat)
    requires now <= arrived && |rx| == |arrived| && k <= |now|
    ensures arrived[..|now|] == now && rx[..|now|][..k] == rx[..k]
  {
  }

  lemma {:induction false} RunLossless(s: Pipe, turns: seq<Turn>, plan: seq<Datagram>, all: seq<bytes>, rx: seq<nat>)
    requires Consecutive(plan) && Session(plan, all) && Inv(s)
    requires Delivered(Run(s, turns).arrived, plan, rx)
    requires Run(s, turns).tracker.stats.packetsDropped == s.tracker.stats.packetsDropped
    requires Lossless(s, plan, NextNew(rx[..|s.arrived|]))
    ensures Lossless(Run(s, turns), plan, NextNew(rx))
    decreases |turns|
  {
    if turns == [] {
      assert rx[..|s.arrived|] == rx;
    } else {
      FirstLossless(s, turns[0], plan, all, Run(s, turns).arrived, rx);
      RunLossless(TakeTurn(s, turns[0]), turns[1..], plan, all, rx);
    }
  }

  // ---- The whole file ----

  /** Packet i carries the messages between two cuts of `all`. */
  ghost predicate CutAt(wires: seq<bytes>, all: seq<bytes>, cuts: seq<nat>, i: nat)
    requires i < |wires| && |cuts| == |wires| + 1
  {
    cuts[i] <= cuts[i + 1] <= |all| && MessagesOf(wires[i]) == all[cuts[i]..cuts[i + 1]]
  }

  lemma {:induction false} CutMessages(wires: seq<bytes>, all: seq<bytes>, cuts: seq<nat>)
    requires |cuts| == |wires| + 1 && cuts[0] == 0
    requires forall i {:trigger CutAt(wires, all, cuts, i)} | 0 <= i < |wires| :: CutAt(wires, all, cuts, i)
    ensures cuts[|wires|] <= |all| && AllMessages(wires) == all[..cuts[|wires|]]
  {
    if wires != [] {
      var n := |wires| - 1;
      var wires', cuts' := wires[..n], cuts[..n + 1];
      forall i {:trigger CutAt(wires', all, cuts', i)} | 0 <= i < n ensures CutAt(wires', all, cuts', i) {
        assert CutAt(wires, all, cuts, i);
      }
      CutMessages(wires', all, cuts');
      assert CutAt(wires, all, cuts, n);
      SliceSnoc(all, cuts[n], cuts[n + 1]);
    }
  }

  lemma SliceSnoc(all: seq<bytes>, a: nat, b: nat)
    requires a <= b <= |all|
    ensures all[..a] + all[a..b] == all[..b]
  {
  }

  lemma {:induction false} WireAt(plan: seq<Datagram>, k: nat, i: nat)
    requires i < k <= |plan|
    ensures Wires(plan, k)[i] == Wire(plan[i])
  {
    if i < k - 1 {
      WireAt(plan, k - 1, i);
    }
  }

  /** The packets before packet k carry exactly the messages before its number. */
  lemma WiresMessages(plan: seq<Datagram>, all: seq<bytes>, k: nat)
    requires Consecutive(plan) && Session(plan, all) && k < |plan|
    ensures 1 <= plan[k].seqNo <= |all| + 1 && AllMessages(Wires(plan, k)) == all[..plan[k].seqNo - 1]
  {
    var wires, cuts := Wires(plan, k), Cuts(plan, all, k);
    forall i {:trigger CutAt(wires, all, cuts, i)} | 0 <= i < k ensures CutAt(wires, all, cuts, i) {
      PlanCut(plan, all, k, i);
    }
    CutMessages(wires, all, cuts);
  }

  /** Where the packets up to packet k start. */
  ghost function Cuts(plan: seq<Datagram>, all: seq<bytes>, k: nat): (cuts: seq<nat>)
    requires Consecutive(plan) && Session(plan, all) && k < |plan|
  {
    seq(k + 1, i requires 0 <= i <= k => StartOf(plan, all, i))
  }

  ghost function StartOf(plan: seq<Datagram>, all: seq<bytes>, i: nat): (n: nat)
    requires Consecutive(plan) && Session(plan, all) && i < |plan|
    ensures n == plan[i].seqNo - 1 <= |all|
  {
    assert SliceAt(plan, all, i);
    if i > 0 then PlanAscends(plan, 0, i); plan[i].seqNo - 1 else plan[i].seqNo - 1
  }

  lemma PlanCut(plan: seq<Datagram>, all: seq<bytes>, k: nat, i: nat)
    requires Consecutive(plan) && Session(plan, all) && i < k < |plan|
    ensures CutAt(Wires(plan, k), all, Cuts(plan, all, k), i)
  {
    WireAt(plan, k, i);
    MessagesAt(plan, all, i);
  }

  /** Packet k carries the messages between its number and the next packet's. */
  lemma MessagesAt(plan: seq<Datagram>, all: seq<bytes>, k: nat)
    requires Consecutive(plan) && Session(plan, all) && k + 1 < |plan|
    ensures 1 <= plan[k].seqNo <= plan[k + 1].seqNo <= |all| + 1
    ensures MessagesOf(Wire(plan[k])) == all[plan[k].seqNo - 1..plan[k + 1].seqNo - 1]
  {
    assert Follows(plan, k);
    assert SliceAt(plan, all, k) && SliceAt(plan, all, k + 1);
    PlanPacket(plan, all, k);
  }

  /** The matcher ends only after the last value pushed. */
  lemma EndedAtSentinel(s: Pipe)
    requires Inv(s) && s.matcher.MatcherDone?
    ensures INVALID in s.ring.pushed && s.ring.popped == s.ring.pushed
    ensures s.processed == AllMessages(s.packets)
  {
    var i :| 0 <= i < |s.ring.popped| && s.ring.popped[i] == INVALID;
    assert s.ring.pushed[i] == INVALID;
    assert s.packets[..|s.packets|] == s.packets;
  }

  /** With every packet delivered in order of first copies and none dropped, a run that ends has
      processed exactly the session. */
  lemma ProcessedAll(s: Pipe, turns: seq<Turn>, plan: seq<Datagram>, all: seq<bytes>, rx: seq<nat>)
    requires Inv(s) && s.tracker == START && s.arrived == [] && s.packets == [] && s.net.Acquiring?
    requires Consecutive(plan) && Session(plan, all) && plan[|plan| - 1].seqNo == |all| + 1
    requires Delivered(Run(s, turns).arrived, plan, rx)
    requires Run(s, turns).tracker.stats.packetsDropped == 0
    requires Run(s, turns).matcher.MatcherDone?
    ensures Run(s, turns).processed == all
  {
    assert rx[..0] == [];
    RunLossless(s, turns, plan, all, rx);
    EndedAtSentinel(Run(s, turns));
    WholeSession(plan, all);
  }

  /** All data packets of the plan and the sentinel carry the whole session. */
  lemma WholeSession(plan: seq<Datagram>, all: seq<bytes>)
    requires Consecutive(plan) && Session(plan, all) && plan[|plan| - 1].seqNo == |all| + 1
    ensures AllMessages(Wires(plan, |plan| - 1) + [[]]) == all
  {
    var n := |plan| - 1;
    WiresMessages(plan, all, n);
    assert all[..|all|] == all;
    assert (Wires(plan, n) + [[]])[..n] == Wires(plan, n);
  }
}
