/** The tracker inside the pipeline: in every run its counters are those of the receive loop over what arrived. */
module FeedLaws {
  import opened Words
  import opened MoldUdp64
  import opened FeedHandlers
  import opened Pipelines

  // ---- One arrival more ----

  lemma {:induction false} CountSnoc(os: seq<Outcome>, x: Outcome, o: Outcome)
    ensures Count(os + [x], o) == Count(os, o) + CountOne(x == o)
  {
    if os != [] {
      CountSnoc(os[1..], x, o);
      assert (os + [x])[1..] == os[1..] + [x];
    } else {
      assert (os + [x])[1..] == [];
    }
  }

  // ---- The stream behind a pipeline state ----

  /** What the receive loop makes of a datagram. */
  function ArrivalOf(bs: bytes, fits: bool): (a: Arrival) {
    if |bs| < HEADER_BYTES then Short else Packet(HeaderOf(bs), |bs|, fits)
  }

  predicate Describes1(a: Arrival, bs: bytes) {
    a == ArrivalOf(bs, true) || a == ArrivalOf(bs, false)
  }

  /** The stream is what arrived, with the datagrams read into scratch space in between. */
  ghost predicate Describes(stream: seq<Arrival>, arrived: seq<bytes>)
    decreases |stream|
  {
    if stream == [] then arrived == []
    else
      var a, before := stream[|stream| - 1], stream[..|stream| - 1];
      if a.Overrun? then Describes(before, arrived)
      else
        && arrived != [] && Describes1(a, arrived[|arrived| - 1])
        && Describes(before, arrived[..|arrived| - 1])
  }

  /** The last arrival is on its way into the ring. */
  ghost predicate InTransit(stream: seq<Arrival>) {
    && stream != []
    && var a, before := stream[|stream| - 1], stream[..|stream| - 1];
       && Ended !in Outcomes(START, before) && a.Packet? && a.fits
       && Judge(TrackAll(START, before), a).Pushed?
  }

  /** The datagrams among the arrivals that were judged fit to push, in order. */
  ghost function Taken(stream: seq<Arrival>, arrived: seq<bytes>): (ps: seq<bytes>)
    requires Describes(stream, arrived)
    decreases |stream|
  {
    if stream == [] then []
    else
      var a, before := stream[|stream| - 1], stream[..|stream| - 1];
      if a.Overrun? then Taken(before, arrived)
      else
        var last := |arrived| - 1;
        Taken(before, arrived[..last])
        + if Judge(TrackAll(START, before), a).Pushed? then [arrived[last]] else []
  }

  function Listed(p: Option<bytes>): (ps: seq<bytes>) {
    match p
    case None => []
    case Some(bs) => [bs]
  }

  /** Tracker, arrivals, data packets pushed and the packet about to be pushed are those of this stream. */
  ghost predicate Follows(t: Tracker, arrived: seq<bytes>, data: seq<bytes>, next: Option<bytes>, over: bool,
                          stream: seq<Arrival>) {
    && t == TrackAll(START, stream) && Describes(stream, arrived) && |Outcomes(START, stream)| == |stream|
    && Count(Outcomes(START, stream), Outcome.Pushed) == |data| + |Listed(next)|
    && Taken(stream, arrived) == data + Listed(next)
    && (Ended in Outcomes(START, stream) ==> over)
    && (next.Some? ==> InTransit(stream) && arrived != [] && next.value == arrived[|arrived| - 1])
  }

  /** Data packets pushed so far: all but the sentinel. */
  ghost function DataPackets(s: Pipe): (ps: seq<bytes>) {
    if INVALID in s.ring.pushed && s.packets != [] then s.packets[..|s.packets| - 1] else s.packets
  }

  /** The packet that the network thread is pushing. */
  ghost function InHand(s: Pipe): (p: Option<bytes>) {
    if s.net.Pushing? && s.net.slot < |s.memory| then Some(s.memory[s.net.slot]) else None
  }

  ghost predicate Followed(s: Pipe, stream: seq<Arrival>) {
    Follows(s.tracker, s.arrived, DataPackets(s), InHand(s), Ending(s.net) || s.net.NetDone?, stream)
  }

  lemma TakenSnoc(stream: seq<Arrival>, arrived: seq<bytes>, a: Arrival, bs: bytes)
    requires Describes(stream, arrived) && Describes1(a, bs)
    ensures Describes(stream + [a], arrived + [bs])
    ensures Taken(stream + [a], arrived + [bs])
         == Taken(stream, arrived) + if Judge(TrackAll(START, stream), a).Pushed? then [bs] else []
  {
    var stream', arrived' := stream + [a], arrived + [bs];
    assert stream'[..|stream|] == stream && arrived'[..|arrived|] == arrived;
  }

  lemma FollowOne(t: Tracker, arrived: seq<bytes>, data: seq<bytes>, stream: seq<Arrival>, bs: bytes)
    requires Follows(t, arrived, data, None, false, stream)
    ensures var a := ArrivalOf(bs, true);
            var o := Judge(t, a);
            Follows(Track(t, a), arrived + [bs], data, if o.Pushed? then Some(bs) else None, o.Ended?, stream + [a])
  {
    var a := ArrivalOf(bs, true);
    TrackSnoc(START, stream, a);
    CountSnoc(Outcomes(START, stream), Judge(t, a), Outcome.Pushed);
    TakenSnoc(stream, arrived, a, bs);
    assert (stream + [a])[..|stream|] == stream;
  }

  lemma FollowScratch(t: Tracker, arrived: seq<bytes>, data: seq<bytes>, stream: seq<Arrival>, size: nat)
    requires Follows(t, arrived, data, None, false, stream)
    ensures Follows(Track(t, Overrun(size)), arrived, data, None, false, stream + [Overrun(size)])
  {
    TrackSnoc(START, stream, Overrun(size));
    CountSnoc(Outcomes(START, stream), Lost, Outcome.Pushed);
    assert (stream + [Overrun(size)])[..|stream|] == stream;
  }

  lemma SameFront<T>(xs: seq<T>, ys: seq<T>, z: T)
    requires xs + [z] == ys + [z]
    ensures xs == ys
  {
    assert xs == (xs + [z])[..|xs|] && ys == (ys + [z])[..|ys|];
  }

  /** The tracker of a packet that turns out not to fit. */
  lemma FullTracked(before: seq<Arrival>, a: Arrival)
    requires Ended !in Outcomes(START, before) && a.Packet? && a.fits && Judge(TrackAll(START, before), a).Pushed?
    ensures var b, os := a.(fits := false), Outcomes(START, before);
            && TrackAll(START, before + [b]) == Dropped(TrackAll(START, before + [a]))
            && Outcomes(START, before + [a]) == os + [Outcome.Pushed] && Outcomes(START, before + [b]) == os + [Full]
            && Count(os + [Outcome.Pushed], Outcome.Pushed) == Count(os + [Full], Outcome.Pushed) + 1
  {
    TrackSnoc(START, before, a);
    TrackSnoc(START, before, a.(fits := false));
    CountSnoc(Outcomes(START, before), Outcome.Pushed, Outcome.Pushed);
    CountSnoc(Outcomes(START, before), Full, Outcome.Pushed);
  }

  /** And what was taken: all but this packet. */
  lemma FullTaken(before: seq<Arrival>, a: Arrival, arrived: seq<bytes>, data: seq<bytes>, next: bytes)
    requires Describes(before, arrived) && Describes1(a, next) && a.Packet? && a.fits
    requires Judge(TrackAll(START, before), a).Pushed?
    requires Describes(before + [a], arrived + [next]) && Taken(before + [a], arrived + [next]) == data + [next]
    ensures var b := a.(fits := false);
            Describes(before + [b], arrived + [next]) && Taken(before + [b], arrived + [next]) == data
  {
    TakenSnoc(before, arrived, a, next);
    TakenSnoc(before, arrived, a.(fits := false), next);
    SameFront(Taken(before, arrived), data, next);
  }

  /** A packet that finds the ring full turns out not to fit. */
  lemma FollowFull(t: Tracker, arrived: seq<bytes>, data: seq<bytes>, next: bytes, stream: seq<Arrival>)
    returns (stream': seq<Arrival>)
    requires Follows(t, arrived, data, Some(next), false, stream)
    ensures Follows(Dropped(t), arrived, data, None, false, stream')
  {
    var n, last := |stream| - 1, |arrived| - 1;
    var a, before := stream[n], stream[..n];
    stream' := before + [a.(fits := false)];
    assert stream == before + [a] && arrived == arrived[..last] + [next];
    FullTracked(before, a);
    FullTaken(before, a, arrived[..last], data, next);
  }

  // ---- Every turn ----

  /** Turns that receive, track and push nothing. */
  lemma QuietFollowed(s: Pipe, s': Pipe, stream: seq<Arrival>)
    requires Followed(s, stream) && SameFeed(s, s')
    requires s'.net == s.net || (!s.net.Pushing? && !s'.net.Pushing?)
    requires Ending(s.net) || s.net.NetDone? ==> Ending(s'.net) || s'.net.NetDone?
    ensures Followed(s', stream)
  {
  }

  /** What a received datagram changes. */
  lemma GotChanges(s: Pipe, data: bytes)
    requires Inv(s) && s.net.Receiving?
    ensures var s', bs := ReceiveTurn(s, Got(data)), Clipped(data);
            var o := Judge(s.tracker, ArrivalOf(bs, true));
            && s'.tracker == Track(s.tracker, ArrivalOf(bs, true)) && s'.arrived == s.arrived + [bs]
            && DataPackets(s') == DataPackets(s) && InHand(s') == (if o.Pushed? then Some(bs) else None)
            && (o.Ended? <==> Ending(s'.net)) && !s'.net.NetDone?
  {
  }

  lemma ReceiveFollowed(s: Pipe, recv: Recv, stream: seq<Arrival>) returns (stream': seq<Arrival>)
    requires Inv(s) && s.net.Receiving? && Followed(s, stream)
    ensures Followed(ReceiveTurn(s, recv), stream')
  {
    stream' := stream;
    if recv.Got? {
      var bs := Clipped(recv.data);
      FollowOne(s.tracker, s.arrived, DataPackets(s), stream, bs);
      GotChanges(s, recv.data);
      stream' := stream + [ArrivalOf(bs, true)];
    } else {
      QuietFollowed(s, ReceiveTurn(s, recv), stream);
    }
  }

  lemma ScratchFollowed(s: Pipe, recv: Recv, stream: seq<Arrival>) returns (stream': seq<Arrival>)
    requires Inv(s) && s.net.ReceivingScratch? && Followed(s, stream)
    ensures Followed(ScratchTurn(s, recv), stream')
  {
    stream' := stream;
    if recv.Got? && recv.data != [] {
      var size := |Clipped(recv.data)|;
      FollowScratch(s.tracker, s.arrived, DataPackets(s), stream, size);
      stream' := stream + [Overrun(size)];
    }
  }

  lemma PushFollowed(s: Pipe, stream: seq<Arrival>) returns (stream': seq<Arrival>)
    requires Inv(s) && s.net.Pushing? && Followed(s, stream)
    ensures Followed(PushTurn(s), stream')
  {
    stream' := stream;
    if s.ring.producer.TailLoaded? && PushTurn(s).net.Releasing? {
      stream' := FollowFull(s.tracker, s.arrived, DataPackets(s), s.memory[s.net.slot], stream);
    } else {
      PushCounts(s);
    }
  }

  /** The packet in transit is counted as pushed once it is stored. */
  lemma PushCounts(s: Pipe)
    requires Inv(s) && s.net.Pushing? && !PushTurn(s).net.Releasing?
    ensures var s' := PushTurn(s);
            && s'.tracker == s.tracker && s'.arrived == s.arrived && !Ending(s'.net) && !s'.net.NetDone?
            && InHand(s).Some? && DataPackets(s') + Listed(InHand(s')) == DataPackets(s) + Listed(InHand(s))
            && (InHand(s').Some? ==> InHand(s') == InHand(s))
  {
  }

  /** The sentinel is not counted. */
  lemma PushEndCounts(s: Pipe)
    requires Inv(s) && s.net.PushingEnd?
    ensures var s' := PushEndTurn(s);
            && s'.tracker == s.tracker && s'.arrived == s.arrived && (Ending(s'.net) || s'.net.NetDone?)
            && DataPackets(s') == DataPackets(s) && InHand(s') == InHand(s) == None
  {
  }

  lemma ReleaseEnds(s: Pipe, spurious: bool)
    requires Inv(s) && s.net.Releasing?
    ensures Ending(s.net) ==> Ending(ReleaseTurn(s, spurious).net)
  {
  }

  lemma NetFollowed(s: Pipe, c: Choice, stream: seq<Arrival>) returns (stream': seq<Arrival>)
    requires Inv(s) && Followed(s, stream)
    ensures Followed(NetTurnOf(s, c), stream')
  {
    stream' := stream;
    match s.net
    case Acquiring => QuietFollowed(s, AcquireTurn(s, c.spurious), stream);
    case Receiving(_) => stream' := ReceiveFollowed(s, c.recv, stream);
    case ReceivingScratch => stream' := ScratchFollowed(s, c.recv, stream);
    case Pushing(_) => stream' := PushFollowed(s, stream);
    case PushingEnd => PushEndCounts(s);
    case Releasing(_, _) => ReleaseEnds(s, c.spurious); QuietFollowed(s, ReleaseTurn(s, c.spurious), stream);
    case NetDone =>
  }

  lemma {:induction false} RunFollowed(s: Pipe, turns: seq<Turn>, stream: seq<Arrival>) returns (stream': seq<Arrival>)
    requires Inv(s) && Followed(s, stream)
    ensures Followed(Run(s, turns), stream')
    decreases |turns|
  {
    stream' := stream;
    if turns != [] {
      TurnKeeps(s, turns[0]);
      if turns[0].NetTurn? {
        stream' := NetFollowed(s, turns[0].choice, stream);
      } else {
        QuietFollowed(s, MatcherTurnOf(s, turns[0].choice), stream);
      }
      stream' := RunFollowed(TakeTurn(s, turns[0]), turns[1..], stream');
    }
  }

  // ---- Every run ----

  /** A data packet is taken exactly if it starts at or past all that was taken before it, taken ranges ascend
      without overlap, and the gaps counted are the holes between them. */
  ghost predicate Recovers(stats: FeedStats, stream: seq<Arrival>) {
    && (forall i {:trigger AddsRange(START, stream, i)} | 0 <= i < |stream| :: AddsRange(START, stream, i))
    && Ascending(FirstExpected(START, stream), Ranges(START, stream))
    && stats.gapsDetected == Holes(FirstExpected(START, stream), Ranges(START, stream))
  }

  lemma StreamRecovers(stream: seq<Arrival>)
    requires NoWrap(stream) && |Outcomes(START, stream)| == |stream|
    ensures Recovers(TrackAll(START, stream).stats, stream)
  {
    forall i {:trigger AddsRange(START, stream, i)} | 0 <= i < |stream| ensures AddsRange(START, stream, i) {
      AcceptsRange(START, stream, i);
    }
    RangesAscend(START, stream);
    GapsExact(START, stream);
  }

  /** Every datagram is counted once, and so is every byte. */
  lemma StreamCounts(stream: seq<Arrival>)
    requires |Outcomes(START, stream)| == |stream|
    ensures var os, stats := Outcomes(START, stream), TrackAll(START, stream).stats;
            && stats.packetsReceived == Count(os, Outcome.Pushed) + stats.packetsDropped + stats.duplicatesIgnored
                                        + Count(os, Outcome.Heartbeat) + stats.endOfSession
            && stats.bytesReceived == SizeSum(stream)
  {
    Accounting(START, stream);
    BytesExact(START, stream);
    assert stream[..|stream|] == stream;
  }

  /** In every run the counters account for every datagram once, the packets pushed are exactly the datagrams
      taken, in order, and unless numbers wrap the receiver recovers from every gap. */
  lemma PipelineAccounting(memory: seq<bytes>, buffer: seq<uint32>, turns: seq<Turn>) returns (stream: seq<Arrival>)
    requires CanStart(memory, buffer)
    ensures var s := Run(Start(memory, buffer), turns);
            var os, stats := Outcomes(START, stream), s.tracker.stats;
            && Describes(stream, s.arrived) && s.tracker == TrackAll(START, stream)
            && Taken(stream, s.arrived) == DataPackets(s) + Listed(InHand(s))
            && stats.packetsReceived
               == |DataPackets(s)| + |Listed(InHand(s))| + stats.packetsDropped + stats.duplicatesIgnored
                  + Count(os, Outcome.Heartbeat) + stats.endOfSession
            && stats.bytesReceived == SizeSum(stream)
            && (NoWrap(stream) ==> Recovers(stats, stream))
  {
    stream := RunFollowed(Start(memory, buffer), turns, []);
    StreamCounts(stream);
    if NoWrap(stream) {
      StreamRecovers(stream);
    }
  }
}
