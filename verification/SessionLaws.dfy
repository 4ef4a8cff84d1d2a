/**
  From file to engine over a network that may lose, repeat and reorder datagrams: the messages
  processed are a subsequence of the messages sent, in order, each at most once.
 */
module SessionLaws {
  import opened Words
  import opened Collections
  import opened MoldUdp64
  import opened FeedHandlers
  import opened Replayer
  import opened Pipelines

  /** A data packet that carries exactly the messages of `all` that its numbers claim. */
  ghost predicate Piece(p: bytes, all: seq<bytes>) {
    && |p| >= HEADER_BYTES
    && var h := HeaderOf(p);
       && 1 <= h.sequenceNumber && EndOf(h) <= |all| + 1
       && Frames(p[HEADER_BYTES..]) == all[h.sequenceNumber - 1..EndOf(h) - 1]
  }

  /** What the network may deliver: a data packet of the session, a heartbeat, an end marker, or a runt. */
  ghost predicate Genuine(p: bytes, all: seq<bytes>) {
    && |p| <= MAX_PACKET_BYTES
    && (|p| < HEADER_BYTES || HeaderOf(p).messageCount in {HEARTBEAT, END_OF_SESSION} || Piece(p, all))
  }

  ghost predicate GenuineTurn(turn: Turn, all: seq<bytes>) {
    turn.NetTurn? && turn.choice.recv.Got? ==> Genuine(turn.choice.recv.data, all)
  }

  /** Everything a replay sends is genuine. */
  lemma PlanGenuine(plan: seq<Datagram>, all: seq<bytes>, k: nat)
    requires Session(plan, all) && k < |plan|
    ensures Genuine(Wire(plan[k]), all)
    ensures plan[k].Data? ==> Piece(Wire(plan[k]), all)
  {
    assert SliceAt(plan, all, k);
    WireRoundTrip(plan[k], all);
  }

  function First(p: bytes): (n: nat)
    requires |p| >= HEADER_BYTES
  {
    HeaderOf(p).sequenceNumber
  }

  function Past(p: bytes): (n: nat)
    requires |p| >= HEADER_BYTES
  {
    EndOf(HeaderOf(p))
  }

  /** Pieces of the session, ascending without overlap, ending at or before `bound`. */
  ghost predicate UpTo(packets: seq<bytes>, bound: nat, all: seq<bytes>)
    decreases |packets|
  {
    packets == [] ||
      var p, before := packets[|packets| - 1], packets[..|packets| - 1];
      if p == [] then UpTo(before, bound, all)
      else Piece(p, all) && Past(p) <= bound && UpTo(before, First(p), all)
  }

  lemma {:induction false} UpToWider(packets: seq<bytes>, bound: nat, wider: nat, all: seq<bytes>)
    requires UpTo(packets, bound, all) && bound <= wider
    ensures UpTo(packets, wider, all)
    decreases |packets|
  {
    if packets != [] && packets[|packets| - 1] == [] {
      UpToWider(packets[..|packets| - 1], bound, wider, all);
    }
  }

  lemma {:induction false} UpToPrefix(packets: seq<bytes>, bound: nat, all: seq<bytes>, k: nat)
    requires UpTo(packets, bound, all) && k <= |packets|
    ensures UpTo(packets[..k], bound, all)
    decreases |packets|
  {
    if k == |packets| {
      assert packets[..k] == packets;
    } else {
      var p, before := packets[|packets| - 1], packets[..|packets| - 1];
      if p != [] {
        UpToWider(before, First(p), bound, all);
      }
      UpToPrefix(before, bound, all, k);
      assert before[..k] == packets[..k];
    }
  }

  /** The numbers the tracker has already seen lie below this. */
  function Seen(t: Tracker): (n: nat) {
    if t.sessionInit then t.nextExpected else 0
  }

  /** Packets in the ring ascend below the tracker's expectation, as does the one being pushed. */
  ghost predicate Ordered(packets: seq<bytes>, t: Tracker, pushing: Option<bytes>, all: seq<bytes>) {
    match pushing
    case None => UpTo(packets, Seen(t), all)
    case Some(p) => Piece(p, all) && Past(p) <= Seen(t) && UpTo(packets, First(p), all)
  }

  ghost function PushedNext(s: Pipe): (p: Option<bytes>)
    requires Inv(s)
  {
    if s.net.Pushing? then Some(s.memory[s.net.slot]) else None
  }

  ghost predicate InOrder(s: Pipe, all: seq<bytes>) {
    Inv(s) && Ordered(s.packets, s.tracker, PushedNext(s), all)
  }

  /** Tracking a genuine packet: if it is passed on, it starts past everything seen. */
  lemma TrackOrdered(t: Tracker, packets: seq<bytes>, p: bytes, all: seq<bytes>)
    requires Ordered(packets, t, None, all) && Genuine(p, all) && |p| >= HEADER_BYTES && |all| + 1 < TWO_64
    ensures var a := Packet(HeaderOf(p), |p|, true);
            Ordered(packets, Track(t, a), if Judge(t, a).Pushed? then Some(p) else None, all)
  {
    var a := Packet(HeaderOf(p), |p|, true);
    var t' := Track(t, a);
    if Judge(t, a).Pushed? {
      UpToWider(packets, Seen(t), First(p), all);
    } else {
      UpToWider(packets, Seen(t), Seen(t'), all);
    }
  }

  lemma ReceiveOrdered(s: Pipe, recv: Recv, all: seq<bytes>)
    requires InOrder(s, all) && s.net.Receiving? && (recv.Got? ==> Genuine(recv.data, all)) && |all| + 1 < TWO_64
    ensures InOrder(ReceiveTurn(s, recv), all)
  {
    if recv.Got? && |recv.data| >= HEADER_BYTES {
      PacketOrdered(s, recv, all);
    } else {
      ReceiveKeeps(s, recv);
    }
  }

  lemma PacketOrdered(s: Pipe, recv: Recv, all: seq<bytes>)
    requires InOrder(s, all) && s.net.Receiving? && |all| + 1 < TWO_64
    requires recv.Got? && Genuine(recv.data, all) && |recv.data| >= HEADER_BYTES
    ensures InOrder(ReceiveTurn(s, recv), all)
  {
    var p := recv.data;
    var a := Packet(HeaderOf(p), |p|, true);
    ReceiveKeeps(s, recv);
    TrackOrdered(s.tracker, s.packets, p, all);
    var s' := ReceiveTurn(s, recv);
    assert s'.packets == s.packets && s'.tracker == Track(s.tracker, a);
    assert PushedNext(s') == if Judge(s.tracker, a).Pushed? then Some(p) else None;
  }

  /** A packet that is stored, or dropped, leaves the ring in order. */
  lemma OrderedOneMore(packets: seq<bytes>, t: Tracker, p: bytes, all: seq<bytes>)
    requires Ordered(packets, t, Some(p), all)
    ensures Ordered(packets + [p], t, None, all) && Ordered(packets, t, None, all)
  {
    UpToWider(packets, First(p), Seen(t), all);
    assert (packets + [p])[..|packets|] == packets;
  }

  /** What a turn of a push changes. */
  lemma PushChanges(s: Pipe)
    requires Inv(s) && s.net.Pushing?
    ensures var s', p := PushTurn(s), s.memory[s.net.slot];
            && Inv(s') && Seen(s'.tracker) == Seen(s.tracker)
            && (if s'.net.Pushing? then PushedNext(s') == Some(p) && s'.packets == s.packets
                else PushedNext(s') == None && (s'.packets == s.packets + [p] || s'.packets == s.packets))
  {
    PushKeeps(s);
  }

  lemma PushOrdered(s: Pipe, all: seq<bytes>)
    requires InOrder(s, all) && s.net.Pushing?
    ensures InOrder(PushTurn(s), all)
  {
    PushChanges(s);
    OrderedOneMore(s.packets, s.tracker, s.memory[s.net.slot], all);
  }

  lemma PushEndOrdered(s: Pipe, all: seq<bytes>)
    requires InOrder(s, all) && s.net.PushingEnd?
    ensures InOrder(PushEndTurn(s), all)
  {
    PushEndKeeps(s);
    assert (s.packets + [[]])[..|s.packets|] == s.packets;
  }

  lemma NetOrdered(s: Pipe, c: Choice, all: seq<bytes>)
    requires InOrder(s, all) && GenuineTurn(NetTurn(c), all) && |all| + 1 < TWO_64
    ensures InOrder(NetTurnOf(s, c), all)
  {
    NetKeeps(s, c);
    match s.net
    case Receiving(_) => ReceiveOrdered(s, c.recv, all);
    case Pushing(_) => PushOrdered(s, all);
    case PushingEnd => PushEndOrdered(s, all);
    case _ =>
  }

  lemma TurnOrdered(s: Pipe, turn: Turn, all: seq<bytes>)
    requires InOrder(s, all) && GenuineTurn(turn, all) && |all| + 1 < TWO_64
    ensures InOrder(TakeTurn(s, turn), all)
  {
    if turn.NetTurn? {
      NetOrdered(s, turn.choice, all);
    } else {
      MatcherKeeps(s, turn.choice);
    }
  }

  lemma {:induction false} RunOrdered(s: Pipe, turns: seq<Turn>, all: seq<bytes>)
    requires InOrder(s, all) && |all| + 1 < TWO_64
    requires forall i | 0 <= i < |turns| :: GenuineTurn(turns[i], all)
    ensures InOrder(Run(s, turns), all)
    decreases |turns|
  {
    if turns != [] {
      TurnOrdered(s, turns[0], all);
      RunOrdered(TakeTurn(s, turns[0]), turns[1..], all);
    }
  }

  // ---- Which messages of the session were processed ----

  /** Appending a slice of `all` that starts past the positions so far. */
  lemma PicksMore(xs: seq<bytes>, ys: seq<bytes>, all: seq<bytes>, positions: seq<nat>, start: nat)
    requires Picks(xs, all, positions) && start + |ys| <= |all| && ys == all[start..start + |ys|]
    requires forall i | 0 <= i < |positions| :: positions[i] < start
    ensures Picks(xs + ys, all, positions + seq(|ys|, i requires i >= 0 => start + i))
  {
  }

  /** One more piece of the session. */
  lemma PickPiece(before: seq<bytes>, p: bytes, bound: nat, all: seq<bytes>, earlier: seq<nat>)
    returns (positions: seq<nat>)
    requires Piece(p, all) && Past(p) <= bound
    requires Picks(AllMessages(before), all, earlier) && forall i | 0 <= i < |earlier| :: earlier[i] + 2 <= First(p)
    ensures Picks(AllMessages(before) + MessagesOf(p), all, positions)
    ensures forall i | 0 <= i < |positions| :: positions[i] + 2 <= bound
  {
    var start := First(p) - 1;
    positions := earlier + seq(|MessagesOf(p)|, i requires i >= 0 => start + i);
    PicksMore(AllMessages(before), MessagesOf(p), all, earlier, start);
  }

  lemma {:induction false} PacketsPick(packets: seq<bytes>, bound: nat, all: seq<bytes>) returns (positions: seq<nat>)
    requires UpTo(packets, bound, all)
    ensures Picks(AllMessages(packets), all, positions)
    ensures forall i | 0 <= i < |positions| :: positions[i] + 2 <= bound
    decreases |packets|
  {
    if packets == [] {
      positions := [];
    } else {
      var p, before := packets[|packets| - 1], packets[..|packets| - 1];
      if p == [] {
        positions := PacketsPick(before, bound, all);
      } else {
        var earlier := PacketsPick(before, First(p), all);
        positions := PickPiece(before, p, bound, all, earlier);
      }
    }
  }

  /** Every run, every network: the messages of the packets popped are session messages, in order, none
      twice; the processed messages are the first of them. */
  lemma PoppedInOrder(memory: seq<bytes>, buffer: seq<uint32>, turns: seq<Turn>, all: seq<bytes>)
    returns (positions: seq<nat>)
    requires CanStart(memory, buffer) && |all| + 1 < TWO_64
    requires forall i | 0 <= i < |turns| :: GenuineTurn(turns[i], all)
    ensures var s := Run(Start(memory, buffer), turns);
            s.processed <= PoppedMessages(s) && Picks(PoppedMessages(s), all, positions)
  {
    var s := Run(Start(memory, buffer), turns);
    RunOrdered(Start(memory, buffer), turns, all);
    var bound := if s.net.Pushing? then First(s.memory[s.net.slot]) else Seen(s.tracker);
    UpToPrefix(s.packets, bound, all, |s.ring.popped|);
    positions := PacketsPick(s.packets[..|s.ring.popped|], bound, all);
  }
}
