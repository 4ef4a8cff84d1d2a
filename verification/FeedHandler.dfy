/**
  Sequence tracking and counters of the UDP receive loop, one datagram at a time.
  `Track` is the specification; the class runs the loop in place.
 */
module FeedHandlers {
  import opened Words
  import opened MoldUdp64

  /** What one turn of the receive loop meets. */
  datatype Arrival =
    | Overrun(size: nat)  // no free buffer: received into scratch space
    | Short               // fewer bytes than a header
    | Packet(hdr: MoldHeader, size: nat, fits: bool) // fits: the ring has room if this gets pushed

  datatype Outcome = Lost | Ignored | Ended | Heartbeat | Duplicate | Pushed | Full

  datatype FeedStats = FeedStats(
    packetsReceived: nat, packetsDropped: nat, bytesReceived: nat,
    gapsDetected: nat, duplicatesIgnored: nat, endOfSession: nat)

  datatype Tracker = Tracker(sessionInit: bool, nextExpected: uint64, stats: FeedStats)

  const START: Tracker := Tracker(false, 1, FeedStats(0, 0, 0, 0, 0, 0))

  // ---- Specification ----

  /** The sequence number the tracker compares a packet with. */
  function Expected(t: Tracker, hdr: MoldHeader): (n: uint64) {
    if t.sessionInit then t.nextExpected else hdr.sequenceNumber
  }

  function Judge(t: Tracker, a: Arrival): (o: Outcome) {
    match a
    case Overrun(_) => Lost
    case Short => Ignored
    case Packet(hdr, _, fits) =>
      if hdr.messageCount == END_OF_SESSION then Ended
      else if hdr.messageCount == HEARTBEAT then Outcome.Heartbeat
      else if hdr.sequenceNumber < Expected(t, hdr) then Duplicate
      else if fits then Pushed else Full
  }

  predicate Accepted(o: Outcome) {
    o.Pushed? || o.Full?
  }

  function EndOf(hdr: MoldHeader): (n: nat) {
    hdr.sequenceNumber as int + hdr.messageCount
  }

  function CountOne(b: bool): (n: nat) {
    if b then 1 else 0
  }

  function Track(t: Tracker, a: Arrival): (t': Tracker) {
    var o := Judge(t, a);
    if a.Short? then t
    else
      var gap := Accepted(o) && a.hdr.sequenceNumber > Expected(t, a.hdr);
      Tracker(
        t.sessionInit || a.Packet?,
        if a.Overrun? then t.nextExpected
        else if Accepted(o) then EndOf(a.hdr) % TWO_64
        else Expected(t, a.hdr),
        FeedStats(
          t.stats.packetsReceived + 1,
          t.stats.packetsDropped + CountOne(o.Lost? || o.Full?),
          t.stats.bytesReceived + a.size,
          t.stats.gapsDetected + CountOne(gap),
          t.stats.duplicatesIgnored + CountOne(o.Duplicate?),
          t.stats.endOfSession + CountOne(o.Ended?)))
  }

  /** The loop over a stream; it stops at the end-of-session marker. */
  function TrackAll(t: Tracker, stream: seq<Arrival>): (t': Tracker)
    decreases |stream|
  {
    if stream == [] then t
    else if Judge(t, stream[0]).Ended? then Track(t, stream[0])
    else TrackAll(Track(t, stream[0]), stream[1..])
  }

  function Outcomes(t: Tracker, stream: seq<Arrival>): (os: seq<Outcome>)
    ensures |os| <= |stream|
    decreases |stream|
  {
    if stream == [] then []
    else if Judge(t, stream[0]).Ended? then [Ended]
    else [Judge(t, stream[0])] + Outcomes(Track(t, stream[0]), stream[1..])
  }

  // ---- The loop, in place ----

  class FeedHandler {
    var sessionInit: bool
    var nextExpected: uint64
    var packetsReceived: nat
    var packetsDropped: nat
    var bytesReceived: nat
    var gapsDetected: nat
    var duplicatesIgnored: nat
    var endOfSession: nat

    ghost function State(): (t: Tracker)
      reads this
    {
      Tracker(sessionInit, nextExpected,
              FeedStats(packetsReceived, packetsDropped, bytesReceived,
                        gapsDetected, duplicatesIgnored, endOfSession))
    }

    constructor ()
      ensures State() == START
    {
      sessionInit, nextExpected := false, 1;
      packetsReceived, packetsDropped, bytesReceived := 0, 0, 0;
      gapsDetected, duplicatesIgnored, endOfSession := 0, 0, 0;
    }

    /** One turn of the receive loop. */
    method Receive(a: Arrival) returns (o: Outcome)
      modifies this
      ensures o == Judge(old(State()), a) && State() == Track(old(State()), a)
    {
      if a.Overrun? {
        packetsReceived := packetsReceived + 1;
        packetsDropped := packetsDropped + 1;
        bytesReceived := bytesReceived + a.size;
        return Lost;
      }
      if a.Short? {
        return Ignored;
      }
      packetsReceived := packetsReceived + 1;
      bytesReceived := bytesReceived + a.size;
      if !sessionInit {
        sessionInit := true;
        nextExpected := a.hdr.sequenceNumber;
      }
      if a.hdr.messageCount == END_OF_SESSION {
        endOfSession := endOfSession + 1;
        return Ended;
      }
      if a.hdr.messageCount == HEARTBEAT {
        return Outcome.Heartbeat;
      }
      if a.hdr.sequenceNumber < nextExpected {
        duplicatesIgnored := duplicatesIgnored + 1;
        return Duplicate;
      }
      if a.hdr.sequenceNumber > nextExpected {
        gapsDetected := gapsDetected + 1;
        nextExpected := a.hdr.sequenceNumber;
      }
      nextExpected := (nextExpected + a.hdr.messageCount) % TWO_64;
      if !a.fits {
        packetsDropped := packetsDropped + 1;
        return Full;
      }
      o := Pushed;
    }

    method ReceiveAll(stream: seq<Arrival>) returns (outcomes: seq<Outcome>)
      modifies this
      ensures State() == TrackAll(old(State()), stream) && outcomes == Outcomes(old(State()), stream)
    {
      outcomes := [];
      for i := 0 to |stream|
        invariant TrackAll(State(), stream[i..]) == TrackAll(old(State()), stream)
        invariant outcomes + Outcomes(State(), stream[i..]) == Outcomes(old(State()), stream)
      {
        assert stream[i..][0] == stream[i] && stream[i..][1..] == stream[i + 1..];
        var o := Receive(stream[i]);
        outcomes := outcomes + [o];
        if o.Ended? {
          return;
        }
      }
    }
  }

  // ---- Which packets are taken ----

  /** A count of 0xFFFF ends the session, a count of zero is a heartbeat, and a data packet is taken exactly if
      it is the first packet of all or starts at or past the expected number; anything below is a duplicate. */
  lemma TakenIff(t: Tracker, hdr: MoldHeader, size: nat, fits: bool)
    ensures var o := Judge(t, Packet(hdr, size, fits));
            && (o.Ended? <==> hdr.messageCount == 0xFFFF)
            && (o.Heartbeat? <==> hdr.messageCount == 0)
            && (Accepted(o) <==> 0 < hdr.messageCount < 0xFFFF
                                 && (!t.sessionInit || hdr.sequenceNumber >= t.nextExpected))
            && (o.Duplicate? <==> 0 < hdr.messageCount < 0xFFFF
                                  && t.sessionInit && hdr.sequenceNumber < t.nextExpected)
            && (Accepted(o) ==> (o.Pushed? <==> fits))
  {
  }

  /** Past a gap the tracker goes on from the packet that revealed it. */
  lemma Resyncs(t: Tracker, hdr: MoldHeader, size: nat, fits: bool)
    requires 0 < hdr.messageCount < 0xFFFF && EndOf(hdr) < TWO_64
    requires t.sessionInit && hdr.sequenceNumber > t.nextExpected
    ensures var t' := Track(t, Packet(hdr, size, fits));
            && t'.nextExpected == hdr.sequenceNumber + hdr.messageCount
            && t'.stats.gapsDetected == t.stats.gapsDetected + 1
  {
  }

  // ---- Laws of every stream ----

  lemma {:induction false} TrackSnoc(t: Tracker, stream: seq<Arrival>, a: Arrival)
    requires Ended !in Outcomes(t, stream)
    ensures TrackAll(t, stream + [a]) == Track(TrackAll(t, stream), a)
    ensures Outcomes(t, stream + [a]) == Outcomes(t, stream) + [Judge(TrackAll(t, stream), a)]
    decreases |stream|
  {
    if stream != [] {
      var t1, rest := Track(t, stream[0]), stream[1..];
      assert Judge(t, stream[0]) == Outcomes(t, stream)[0];
      assert Outcomes(t, stream) == [Judge(t, stream[0])] + Outcomes(t1, rest);
      TrackSnoc(t1, rest, a);
      assert (stream + [a])[1..] == rest + [a];
    } else {
      assert (stream + [a])[1..] == [];
    }
  }

  /** Position i of a stream is judged by the tracker of the positions before it. */
  lemma {:induction false} OutcomeAt(t: Tracker, stream: seq<Arrival>, i: nat)
    requires i < |Outcomes(t, stream)|
    ensures i < |stream| && Ended !in Outcomes(t, stream[..i])
    ensures Outcomes(t, stream)[i] == Judge(TrackAll(t, stream[..i]), stream[i])
    decreases i
  {
    if i > 0 {
      var t1, rest := Track(t, stream[0]), stream[1..];
      OutcomeAt(t1, rest, i - 1);
      assert stream[..i][1..] == rest[..i - 1];
      assert Outcomes(t, stream[..i]) == [Judge(t, stream[0])] + Outcomes(t1, rest[..i - 1]);
    }
  }

  /** Bytes of the datagrams that hold a header or were read without a buffer. */
  function SizeSum(stream: seq<Arrival>): (n: nat) {
    if stream == [] then 0 else (if stream[0].Short? then 0 else stream[0].size) + SizeSum(stream[1..])
  }

  /** The byte counter adds up every datagram met, but for short ones. */
  lemma {:induction false} BytesExact(t: Tracker, stream: seq<Arrival>)
    ensures TrackAll(t, stream).stats.bytesReceived - t.stats.bytesReceived
         == SizeSum(stream[..|Outcomes(t, stream)|])
    decreases |stream|
  {
    if stream != [] {
      var n := |Outcomes(t, stream)|;
      assert stream[..n][0] == stream[0] && stream[..n][1..] == stream[1..][..n - 1];
      if !Judge(t, stream[0]).Ended? {
        BytesExact(Track(t, stream[0]), stream[1..]);
      }
    }
  }

  function Count(os: seq<Outcome>, o: Outcome): (n: nat) {
    if os == [] then 0 else CountOne(os[0] == o) + Count(os[1..], o)
  }

  /** Every datagram long enough for a header is accounted for exactly once. */
  lemma {:induction false} Accounting(t: Tracker, stream: seq<Arrival>)
    ensures var s, s', os := t.stats, TrackAll(t, stream).stats, Outcomes(t, stream);
            && s'.packetsDropped - s.packetsDropped == Count(os, Lost) + Count(os, Full)
            && s'.duplicatesIgnored - s.duplicatesIgnored == Count(os, Duplicate)
            && s'.endOfSession - s.endOfSession == Count(os, Ended) <= 1
            && s'.packetsReceived - s.packetsReceived
               == Count(os, Pushed) + (s'.packetsDropped - s.packetsDropped) + Count(os, Duplicate)
                  + Count(os, Outcome.Heartbeat) + Count(os, Ended)
    decreases |stream|
  {
    if stream != [] && !Judge(t, stream[0]).Ended? {
      Accounting(Track(t, stream[0]), stream[1..]);
      assert Outcomes(t, stream)[1..] == Outcomes(Track(t, stream[0]), stream[1..]);
    }
  }

  /** Sequence numbers [from, to). */
  datatype Range = Range(from: nat, to: nat)

  /** The ranges of the accepted packets, in order. */
  function Ranges(t: Tracker, stream: seq<Arrival>): (rs: seq<Range>)
    decreases |stream|
  {
    if stream == [] || Judge(t, stream[0]).Ended? then []
    else
      (if Accepted(Judge(t, stream[0]))
       then [Range(stream[0].hdr.sequenceNumber, EndOf(stream[0].hdr))] else [])
      + Ranges(Track(t, stream[0]), stream[1..])
  }

  /** Ascending, disjoint, non-empty, starting at `from` or later. */
  ghost predicate Ascending(from: nat, rs: seq<Range>)
    decreases |rs|
  {
    rs == [] || (from <= rs[0].from < rs[0].to && Ascending(rs[0].to, rs[1..]))
  }

  /** Ranges that start past the end of the one before. */
  function Holes(from: nat, rs: seq<Range>): (n: nat)
    decreases |rs|
  {
    if rs == [] then 0 else CountOne(rs[0].from > from) + Holes(rs[0].to, rs[1..])
  }

  function Last(from: nat, rs: seq<Range>): (n: nat) {
    if rs == [] then from else rs[|rs| - 1].to
  }

  /** No packet's numbering runs past 64 bits. */
  ghost predicate NoWrap(stream: seq<Arrival>) {
    forall i | 0 <= i < |stream| && stream[i].Packet? :: EndOf(stream[i].hdr) < TWO_64
  }

  /** The number the stream's tracking starts from. */
  function FirstExpected(t: Tracker, stream: seq<Arrival>): (n: uint64) {
    if t.sessionInit || stream == [] then t.nextExpected
    else if stream[0].Packet? then stream[0].hdr.sequenceNumber
    else FirstExpected(t, stream[1..])
  }

  lemma {:induction false} FirstStable(t: Tracker, u: Tracker, stream: seq<Arrival>)
    requires t.sessionInit == u.sessionInit && t.nextExpected == u.nextExpected
    ensures FirstExpected(t, stream) == FirstExpected(u, stream)
  {
    if stream != [] {
      FirstStable(t, u, stream[1..]);
    }
  }

  /** What one arrival adds: a range that starts at or past the expectation, or nothing. */
  lemma OneArrival(t: Tracker, stream: seq<Arrival>)
    requires NoWrap(stream) && stream != [] && !Judge(t, stream[0]).Ended?
    ensures var a, t1, rest := stream[0], Track(t, stream[0]), stream[1..];
            var from, gaps := FirstExpected(t, stream), t1.stats.gapsDetected - t.stats.gapsDetected;
            if Accepted(Judge(t, a)) then
              && from <= a.hdr.sequenceNumber < EndOf(a.hdr) == FirstExpected(t1, rest)
              && gaps == CountOne(a.hdr.sequenceNumber > from)
              && Ranges(t, stream) == [Range(a.hdr.sequenceNumber, EndOf(a.hdr))] + Ranges(t1, rest)
            else
              FirstExpected(t1, rest) == from && gaps == 0 && Ranges(t, stream) == Ranges(t1, rest)
  {
    if !stream[0].Packet? {
      FirstStable(t, Track(t, stream[0]), stream[1..]);
    }
  }

  /** Accepted packets cover strictly ascending, disjoint ranges. */
  lemma {:induction false} RangesAscend(t: Tracker, stream: seq<Arrival>)
    requires NoWrap(stream)
    ensures Ascending(FirstExpected(t, stream), Ranges(t, stream))
    decreases |stream|
  {
    if stream != [] && !Judge(t, stream[0]).Ended? {
      OneArrival(t, stream);
      RangesAscend(Track(t, stream[0]), stream[1..]);
    }
  }

  /** The gap counter counts exactly the accepted packets that start past the previous accepted end. */
  lemma {:induction false} GapsExact(t: Tracker, stream: seq<Arrival>)
    requires NoWrap(stream)
    ensures TrackAll(t, stream).stats.gapsDetected - t.stats.gapsDetected
         == Holes(FirstExpected(t, stream), Ranges(t, stream))
    decreases |stream|
  {
    if stream != [] && !Judge(t, stream[0]).Ended? {
      OneArrival(t, stream);
      GapsExact(Track(t, stream[0]), stream[1..]);
    }
  }

  /** The expectation is always the end of the last accepted range. */
  lemma {:induction false} ExpectationIsLast(t: Tracker, stream: seq<Arrival>)
    requires NoWrap(stream)
    ensures TrackAll(t, stream).nextExpected == Last(FirstExpected(t, stream), Ranges(t, stream))
    decreases |stream|
  {
    if stream != [] && !Judge(t, stream[0]).Ended? {
      OneArrival(t, stream);
      ExpectationIsLast(Track(t, stream[0]), stream[1..]);
    }
  }

  lemma {:induction false} RangesSnoc(t: Tracker, stream: seq<Arrival>, a: Arrival)
    requires Ended !in Outcomes(t, stream)
    ensures Ranges(t, stream + [a]) == Ranges(t, stream)
            + if Accepted(Judge(TrackAll(t, stream), a)) then [Range(a.hdr.sequenceNumber, EndOf(a.hdr))] else []
    decreases |stream|
  {
    if stream != [] {
      var t1, rest := Track(t, stream[0]), stream[1..];
      assert Outcomes(t, stream) == [Judge(t, stream[0])] + Outcomes(t1, rest);
      assert Judge(t, stream[0]) == Outcomes(t, stream)[0];
      RangesSnoc(t1, rest, a);
      assert (stream + [a])[1..] == rest + [a];
    } else {
      assert (stream + [a])[1..] == [];
    }
  }

  ghost predicate NoPackets(stream: seq<Arrival>) {
    forall i | 0 <= i < |stream| :: !stream[i].Packet?
  }

  /** Tracking starts with the first packet, whatever its kind. */
  lemma {:induction false} StartsAtPacket(t: Tracker, stream: seq<Arrival>)
    requires Ended !in Outcomes(t, stream)
    ensures TrackAll(t, stream).sessionInit <==> t.sessionInit || !NoPackets(stream)
    ensures NoPackets(stream) ==> Ranges(t, stream) == []
    decreases |stream|
  {
    if stream != [] {
      var t1, rest := Track(t, stream[0]), stream[1..];
      assert Outcomes(t, stream) == [Judge(t, stream[0])] + Outcomes(t1, rest);
      assert Judge(t, stream[0]) == Outcomes(t, stream)[0];
      StartsAtPacket(t1, rest);
      assert NoPackets(stream) <==> !stream[0].Packet? && NoPackets(rest);
    }
  }

  lemma {:induction false} FirstHere(t: Tracker, stream: seq<Arrival>, i: nat)
    requires i < |stream| && !t.sessionInit && NoPackets(stream[..i]) && stream[i].Packet?
    ensures FirstExpected(t, stream) == stream[i].hdr.sequenceNumber
  {
    if i > 0 {
      assert stream[..i][0] == stream[0];
      assert stream[1..][..i - 1] == stream[..i][1..];
      FirstHere(t, stream[1..], i - 1);
    }
  }

  /** Where tracking starts does not depend on what comes after the first packet. */
  lemma {:induction false} FirstPrefix(t: Tracker, stream: seq<Arrival>, i: nat)
    requires i <= |stream| && (t.sessionInit || !NoPackets(stream[..i]))
    ensures FirstExpected(t, stream[..i]) == FirstExpected(t, stream)
  {
    if !t.sessionInit && !stream[0].Packet? {
      assert stream[..i][1..] == stream[1..][..i - 1];
      var k :| 0 <= k < i && stream[..i][k].Packet?;
      assert stream[1..][..i - 1][k - 1].Packet?;
      FirstPrefix(t, stream[1..], i - 1);
    }
  }

  lemma PrefixNoWrap(stream: seq<Arrival>, i: nat)
    requires NoWrap(stream) && i <= |stream|
    ensures NoWrap(stream[..i])
  {
    forall j | 0 <= j < i && stream[..i][j].Packet? ensures EndOf(stream[..i][j].hdr) < TWO_64 {
      assert stream[..i][j] == stream[j];
    }
  }

  /** Position i adds its range if it is a data packet that starts at or past the end of the last range before
      it, or of the number that tracking started from; otherwise it adds nothing. */
  ghost predicate AddsRange(t: Tracker, stream: seq<Arrival>, i: nat)
    requires i < |stream|
  {
    var a, before := stream[i], Ranges(t, stream[..i]);
    var taken := a.Packet? && 0 < a.hdr.messageCount < 0xFFFF
                 && a.hdr.sequenceNumber >= Last(FirstExpected(t, stream), before);
    Ranges(t, stream[..i + 1]) ==
      before + if taken then [Range(a.hdr.sequenceNumber, a.hdr.sequenceNumber + a.hdr.messageCount)] else []
  }

  lemma AcceptsRange(t: Tracker, stream: seq<Arrival>, i: nat)
    requires NoWrap(stream) && i < |Outcomes(t, stream)|
    ensures i < |stream| && AddsRange(t, stream, i)
  {
    OutcomeAt(t, stream, i);
    var before := stream[..i];
    assert stream[..i + 1] == before + [stream[i]];
    RangesSnoc(t, before, stream[i]);
    if stream[i].Packet? {
      var hdr := stream[i].hdr;
      TakenIff(TrackAll(t, before), hdr, stream[i].size, stream[i].fits);
      PrefixNoWrap(stream, i);
      ExpectationIsLast(t, before);
      StartsAtPacket(t, before);
      if TrackAll(t, before).sessionInit {
        FirstPrefix(t, stream, i);
      } else {
        FirstHere(t, stream, i);
      }
    }
  }

  lemma {:induction false} LastPast(from: nat, rs: seq<Range>)
    requires Ascending(from, rs)
    ensures Last(from, rs) >= from
    decreases |rs|
  {
    if rs != [] {
      LastPast(rs[0].to, rs[1..]);
    }
  }

  /** Hence it never moves back. */
  lemma NeverBack(t: Tracker, stream: seq<Arrival>)
    requires NoWrap(stream)
    ensures TrackAll(t, stream).nextExpected >= FirstExpected(t, stream)
  {
    ExpectationIsLast(t, stream);
    RangesAscend(t, stream);
    LastPast(FirstExpected(t, stream), Ranges(t, stream));
  }

  /** An accepted packet leaves the expectation past itself exactly when its numbering does not wrap. */
  lemma AdvancesIffNoWrap(t: Tracker, a: Arrival)
    requires a.Packet? && Accepted(Judge(t, a))
    ensures Track(t, a).nextExpected > a.hdr.sequenceNumber <==> EndOf(a.hdr) < TWO_64
  {
    if EndOf(a.hdr) >= TWO_64 {
      assert EndOf(a.hdr) % TWO_64 == EndOf(a.hdr) - TWO_64;
    }
  }

  /** The last number of all: one message numbered 2^64 - 1 sends the expectation back to zero. */
  lemma WrapsToZero(session: bytes)
    ensures var a := Packet(MoldHeader(session, 0xFFFF_FFFF_FFFF_FFFF, 1), HEADER_BYTES, true);
            Judge(START, a).Pushed? && Track(START, a).nextExpected == 0
  {
    assert (0xFFFF_FFFF_FFFF_FFFF + 1) % TWO_64 == 0;
  }

  /** Streams that differ only in which accepted packets found the ring full. */
  ghost predicate SameButRoom(xs: seq<Arrival>, ys: seq<Arrival>) {
    && |xs| == |ys|
    && (forall i | 0 <= i < |xs| ::
          xs[i] == ys[i] || (xs[i].Packet? && ys[i].Packet? && ys[i] == xs[i].(fits := ys[i].fits)))
  }

  /** A packet lost to a full ring leaves no trace but the drop counter: no gap is ever reported for it. */
  lemma {:induction false} FullRingInvisible(t: Tracker, u: Tracker, xs: seq<Arrival>, ys: seq<Arrival>)
    requires SameButRoom(xs, ys)
    requires u == t.(stats := t.stats.(packetsDropped := u.stats.packetsDropped))
    ensures var t', u' := TrackAll(t, xs), TrackAll(u, ys);
            u' == t'.(stats := t'.stats.(packetsDropped := u'.stats.packetsDropped))
    decreases |xs|
  {
    if xs != [] && !Judge(t, xs[0]).Ended? {
      FullRingInvisible(Track(t, xs[0]), Track(u, ys[0]), xs[1..], ys[1..]);
    }
  }
}
