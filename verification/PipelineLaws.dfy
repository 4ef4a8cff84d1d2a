/** What holds in every run of the pipeline, whatever the network delivers. */
module PipelineLaws {
  import opened Words
  import opened MoldUdp64
  import opened FeedHandlers
  import opened Pipelines

  // ---- Slot ownership ----

  lemma OneOwner(s: Pipe, n: uint32)
    requires Inv(s) && n < |s.pool.owner|
    ensures n in s.pool.free <==> s.pool.owner[n] == Pools.Listed
    ensures NetSlot(s.net) == n <==> s.pool.owner[n] == Pools.With(NET)
    ensures MatcherSlot(s.matcher) == n <==> s.pool.owner[n] == Pools.With(MATCHER)
    ensures n in Unread(s.ring.pushed, |s.ring.popped|) <==> s.pool.owner[n] == Pools.With(RING)
    ensures s.pool.owner[n] in {Pools.Listed, Pools.With(NET), Pools.With(MATCHER), Pools.With(RING)}
  {
  }

  /** In every state of every run, each slot is in exactly one of four places. */
  lemma EverySlotOnce(memory: seq<bytes>, buffer: seq<uint32>, turns: seq<Turn>, n: uint32)
    requires CanStart(memory, buffer) && n < |memory|
    ensures var s := Run(Start(memory, buffer), turns);
            CountOne(n in s.pool.free) + CountOne(NetSlot(s.net) == n) + CountOne(MatcherSlot(s.matcher) == n)
            + CountOne(n in Unread(s.ring.pushed, |s.ring.popped|)) == 1
  {
    OneOwner(Run(Start(memory, buffer), turns), n);
  }

  /** n distinct numbers need n places. */
  lemma {:induction false} CoverCount(xs: seq<int>, n: nat)
    requires forall i | 0 <= i < n :: i in xs
    ensures n <= |xs|
  {
    if n > 0 {
      assert n - 1 in xs;
      var k :| 0 <= k < |xs| && xs[k] == n - 1;
      var rest := xs[..k] + xs[k + 1..];
      forall i | 0 <= i < n - 1 ensures i in rest {
        assert i in xs;
        var j :| 0 <= j < |xs| && xs[j] == i;
        assert rest[if j < k then j else j - 1] == i;
      }
      CoverCount(rest, n - 1);
    }
  }

  /** When the network thread finds no free slot, the ring and the matcher hold them all. */
  lemma AllTaken(s: Pipe)
    requires Inv(s) && s.net.Acquiring? && s.pool.freeHead == INVALID
    ensures |s.pool.owner| <= |Unread(s.ring.pushed, |s.ring.popped|)| + CountOne(MatcherSlot(s.matcher) >= 0)
  {
    var unread := Unread(s.ring.pushed, |s.ring.popped|);
    var taken: seq<int> := unread + if MatcherSlot(s.matcher) >= 0 then [MatcherSlot(s.matcher)] else [];
    forall n: int | 0 <= n < |s.pool.owner| ensures n in taken {
      OneOwner(s, n);
      if n in unread {
        var k :| 0 <= k < |unread| && unread[k] == n;
        assert taken[k] == n;
      } else {
        assert taken[|unread|] == n;
      }
    }
    CoverCount(taken, |s.pool.owner|);
  }

  /** A ring of one cell never takes a value. */
  ghost predicate OneCell(s: Pipe) {
    Inv(s) && |s.ring.buffer| == 1 && |s.pool.owner| > 0 && s.ring.pushed == [] && s.matcher.Popping?
  }

  /** The producer of such a ring never gets past the full test. */
  lemma OneCellIdle(s: Pipe)
    requires OneCell(s)
    ensures s.ring.producer.Ready? || s.ring.producer.TailLoaded?
    ensures s.ring.consumer.Waiting? || (s.ring.consumer.HeadLoaded? && s.ring.consumer.h == s.ring.tail)
  {
  }

  lemma PushOneCell(s: Pipe)
    requires OneCell(s) && s.net.Pushing?
    ensures PushTurn(s).ring.pushed == []
  {
    OneCellIdle(s);
  }

  lemma PushEndOneCell(s: Pipe)
    requires OneCell(s) && s.net.PushingEnd?
    ensures PushEndTurn(s).ring.pushed == []
  {
    OneCellIdle(s);
  }

  lemma NetOneCell(s: Pipe, c: Choice)
    requires OneCell(s)
    ensures OneCell(NetTurnOf(s, c))
  {
    NetKeeps(s, c);
    NetLeavesMatcher(s, c);
    if s.net.Pushing? {
      PushOneCell(s);
    } else if s.net.PushingEnd? {
      PushEndOneCell(s);
    } else {
      NetLeavesRing(s, c);
    }
  }

  /** The network thread leaves the matcher alone. */
  lemma NetLeavesMatcher(s: Pipe, c: Choice)
    requires Inv(s)
    ensures NetTurnOf(s, c).matcher == s.matcher
  {
  }

  /** And the ring too unless it is pushing. */
  lemma NetLeavesRing(s: Pipe, c: Choice)
    requires Inv(s) && !s.net.Pushing? && !s.net.PushingEnd?
    ensures NetTurnOf(s, c).ring.pushed == s.ring.pushed
  {
  }

  lemma MatcherOneCell(s: Pipe, c: Choice)
    requires OneCell(s)
    ensures OneCell(MatcherTurnOf(s, c))
  {
    OneCellIdle(s);
    MatcherKeeps(s, c);
  }

  lemma TurnOneCell(s: Pipe, turn: Turn)
    requires OneCell(s)
    ensures OneCell(TakeTurn(s, turn))
  {
    if turn.NetTurn? {
      NetOneCell(s, turn.choice);
    } else {
      MatcherOneCell(s, turn.choice);
    }
  }

  /** More slots than cells, or a ring of one cell. */
  ghost predicate Ample(s: Pipe) {
    Inv(s) && (|s.pool.owner| > |s.ring.buffer| || OneCell(s)) && !s.net.ReceivingScratch?
  }

  lemma SlotLeft(s: Pipe)
    requires Ample(s) && s.net.Acquiring?
    ensures s.pool.freeHead != INVALID
  {
    if s.pool.freeHead == INVALID {
      AllTaken(s);
    }
  }

  /** Only an acquire that finds nothing leads to the scratch buffer. */
  lemma ScratchWhen(s: Pipe, turn: Turn)
    requires Inv(s) && !s.net.ReceivingScratch? && (s.net.Acquiring? ==> s.pool.freeHead != INVALID)
    ensures !TakeTurn(s, turn).net.ReceivingScratch?
  {
  }

  lemma TurnAmple(s: Pipe, turn: Turn)
    requires Ample(s)
    ensures Ample(TakeTurn(s, turn))
  {
    if s.net.Acquiring? {
      SlotLeft(s);
    }
    ScratchWhen(s, turn);
    if OneCell(s) {
      TurnOneCell(s, turn);
    } else {
      TurnKeeps(s, turn);
    }
  }

  /** So acquire never comes back empty-handed, in any interleaving. */
  lemma {:induction false} NeverStarved(s: Pipe, turns: seq<Turn>)
    requires Ample(s)
    ensures Ample(Run(s, turns))
    decreases |turns|
  {
    if turns != [] {
      TurnAmple(s, turns[0]);
      NeverStarved(TakeTurn(s, turns[0]), turns[1..]);
    }
  }

  /** While the matcher reads a slot, no turn of either thread changes its bytes. */
  lemma BytesStable(s: Pipe, turn: Turn)
    requires Inv(s) && s.matcher.Reading?
    ensures TakeTurn(s, turn).memory[s.matcher.slot] == s.memory[s.matcher.slot]
  {
    OneOwner(s, s.matcher.slot);
  }

  /** A receive into scratch space that returns nothing changes nothing. */
  lemma ScratchIdle(s: Pipe, recv: Recv)
    requires Inv(s) && s.net.ReceivingScratch? && (!recv.Got? || recv.data == [])
    ensures ScratchTurn(s, recv) == s.(net := Acquiring)
  {
  }

  /** A datagram received into scratch space is never parsed: only its size matters, and whatever it was, an end
      marker included, the loop goes on with the same expectation and the same gaps and session ends. */
  lemma ScratchBlind(s: Pipe, d: bytes, e: bytes)
    requires Inv(s) && s.net.ReceivingScratch? && |d| == |e| > 0
    ensures ScratchTurn(s, Got(d)) == ScratchTurn(s, Got(e))
    ensures var s' := ScratchTurn(s, Got(d));
            && s'.net.Acquiring? && s'.arrived == s.arrived && s'.tracker.sessionInit == s.tracker.sessionInit
            && s'.tracker.nextExpected == s.tracker.nextExpected
            && s'.tracker.stats == s.tracker.stats.(
                 packetsReceived := s.tracker.stats.packetsReceived + 1,
                 packetsDropped := s.tracker.stats.packetsDropped + 1,
                 bytesReceived := s.tracker.stats.bytesReceived + |Clipped(d)|)
  {
    assert |Clipped(d)| == |Clipped(e)|;
  }
}
