/** The replayed file against the pipeline, end to end. */
module UdpLaws {
  import opened Words
  import opened Collections
  import opened MoldUdp64
  import opened Replayer
  import opened Pipelines
  import opened SessionLaws
  import opened LosslessLaws

  /** Each datagram received is one the replay sent; loss, repetition and order are up to the network. */
  ghost predicate Replayed(turns: seq<Turn>, plan: seq<Datagram>) {
    forall i | 0 <= i < |turns| && turns[i].NetTurn? && turns[i].choice.recv.Got? ::
      InPlan(turns[i].choice.recv.data, plan)
  }

  ghost predicate InPlan(data: bytes, plan: seq<Datagram>) {
    exists k | 0 <= k < |plan| :: data == Wire(plan[k])
  }

  /** A file that a replay can send: lengths, numbers and batches fit their fields and arrays. */
  ghost predicate Sends(msgs: seq<bytes>, maxPerPacket: nat) {
    Sendable(msgs) && 0 < maxPerPacket && SlotsSuffice(msgs, maxPerPacket) && |msgs| + 1 < TWO_64
  }

  /** Over any lossy, repeating, reordering network and any interleaving of the two threads, the messages the
      engine is given are a subsequence of the file: in order, each at most once. */
  lemma FileSubsequence(memory: seq<bytes>, buffer: seq<uint32>, turns: seq<Turn>, msgs: seq<bytes>, maxPerPacket: nat)
    returns (positions: seq<nat>)
    requires CanStart(memory, buffer) && Sends(msgs, maxPerPacket) && Replayed(turns, Plan(msgs, maxPerPacket, 1))
    ensures var s := Run(Start(memory, buffer), turns);
            s.processed <= PoppedMessages(s) && Picks(PoppedMessages(s), msgs, positions)
  {
    var plan, all := Plan(msgs, maxPerPacket, 1), msgs[..FitCount(msgs)];
    PlanIsSession(msgs, maxPerPacket);
    forall i | 0 <= i < |turns| ensures GenuineTurn(turns[i], all) {
      if turns[i].NetTurn? && turns[i].choice.recv.Got? {
        var k :| 0 <= k < |plan| && turns[i].choice.recv.data == Wire(plan[k]);
        PlanGenuine(plan, all, k);
      }
    }
    positions := PoppedInOrder(memory, buffer, turns, all);
  }

  /** Every packet of the plan arrives, first copies in order, none is dropped, and the run ends. */
  ghost predicate Complete(s: Pipe, msgs: seq<bytes>, maxPerPacket: nat, rx: seq<nat>) {
    && FitCount(msgs) == |msgs| && Delivered(s.arrived, Plan(msgs, maxPerPacket, 1), rx)
    && s.tracker.stats.packetsDropped == 0 && s.matcher.MatcherDone?
  }

  /** A complete run has processed exactly the file. */
  lemma UdpEqualsFile(memory: seq<bytes>, buffer: seq<uint32>, turns: seq<Turn>,
                      msgs: seq<bytes>, maxPerPacket: nat, rx: seq<nat>)
    requires CanStart(memory, buffer) && Sends(msgs, maxPerPacket)
    requires Complete(Run(Start(memory, buffer), turns), msgs, maxPerPacket, rx)
    ensures var s := Run(Start(memory, buffer), turns);
            s.processed == PoppedMessages(s) == msgs
  {
    PlanFacts(msgs, maxPerPacket);
    ProcessedAll(Start(memory, buffer), turns, Plan(msgs, maxPerPacket, 1), msgs, rx);
  }

  /** The plan of a file whose messages all fit is a session over the whole file. */
  lemma PlanFacts(msgs: seq<bytes>, maxPerPacket: nat)
    requires Sends(msgs, maxPerPacket) && FitCount(msgs) == |msgs|
    ensures var plan := Plan(msgs, maxPerPacket, 1);
            Consecutive(plan) && Session(plan, msgs) && plan[|plan| - 1].seqNo == |msgs| + 1
  {
    PlanIsSession(msgs, maxPerPacket);
    BatchesCover(msgs, maxPerPacket);
    assert msgs[..|msgs|] == msgs;
    NumberedConsecutive(Batches(msgs, maxPerPacket), 1);
  }
}
