/**
  Where the network thread goes: what it does after each receive, in every interleaving, and the
  only reasons for which either thread ends.
 */
module ThreadLaws {
  import opened Words
  import opened MoldUdp64
  import opened FeedHandlers
  import opened Pipelines
  import opened Starvation
  import opened CompleteRuns

  // ---- After a receive ----

  /** Where the thread goes with what `recv` returned: round its loop after an interrupt, a short datagram, a
      heartbeat or a duplicate; to its end after a failure; to the sentinel after the end marker; and to the
      ring with any other packet. */
  ghost function Goes(t: Tracker, slot: uint32, recv: Recv): (net: Net) {
    match recv
    case Interrupted => Acquiring
    case Failed => NetDone
    case Got(data) =>
      var bs := if |data| <= 2048 then data else data[..2048];
      if |bs| < 20 then Acquiring
      else
        var count, number := 0x100 * (bs[18] as int) + bs[19], HeaderOf(bs).sequenceNumber;
        if count == 0xFFFF then PushingEnd
        else if count == 0 || (t.sessionInit && number < t.nextExpected) then Acquiring
        else Pushing(slot)
  }

  /** Every way out of a release. */
  function Exit(after: After): (net: Net) {
    match after
    case Loop => Acquiring
    case SendEnd => PushingEnd
    case Quit => NetDone
  }

  /** A received packet goes straight to the ring, or its slot is released on the way. */
  lemma ReceiveGoes(s: Pipe, recv: Recv)
    requires Inv(s) && s.net.Receiving?
    ensures var net, goes := ReceiveTurn(s, recv).net, Goes(s.tracker, s.net.slot, recv);
            if goes.Pushing? then net == goes
            else net.Releasing? && net.slot == s.net.slot && Exit(net.after) == goes
  {
    if recv.Got? && |Clipped(recv.data)| >= 20 {
      var bs := Clipped(recv.data);
      HeaderBytes(bs);
      TakenIff(s.tracker, HeaderOf(bs), |bs|, true);
    }
  }

  /** A turn of a releasing thread leaves it where it is, or frees the slot and lets it go on. */
  lemma ReleaseGoes(s: Pipe, turn: Turn)
    requires Inv(s) && s.net.Releasing?
    ensures var s' := TakeTurn(s, turn);
            || s'.net == s.net
            || (s'.net == Exit(s.net.after) && s.net.slot < |s'.pool.owner|
                && s'.pool.owner[s.net.slot] == Pools.Listed)
  {
    if turn.NetTurn? {
      assert Pools.StageSound(s.pool, NET, NET);
    }
  }

  /** Over these turns the thread keeps releasing this slot until the slot is free and the thread is at `goes`. */
  ghost predicate FreesThenGoes(s: Pipe, turns: seq<Turn>, slot: uint32, goes: Net)
    requires Inv(s)
    decreases |turns|
  {
    if s.net.Releasing? then
      && s.net.slot == slot
      && (turns == [] || (TurnKeeps(s, turns[0]); FreesThenGoes(TakeTurn(s, turns[0]), turns[1..], slot, goes)))
    else s.net == goes && slot < |s.pool.owner| && s.pool.owner[slot] == Pools.Listed
  }

  lemma {:induction false} ReleaseLeads(s: Pipe, turns: seq<Turn>)
    requires Inv(s) && s.net.Releasing?
    ensures FreesThenGoes(s, turns, s.net.slot, Exit(s.net.after))
    decreases |turns|
  {
    if turns != [] {
      TurnKeeps(s, turns[0]);
      ReleaseGoes(s, turns[0]);
      if TakeTurn(s, turns[0]).net == s.net {
        ReleaseLeads(TakeTurn(s, turns[0]), turns[1..]);
      }
    }
  }

  /** After a receive, whatever the other thread does, the packet goes to the ring, or its slot is given back
      and the thread goes where it must. */
  lemma ReceiveLeads(s: Pipe, recv: Recv, turns: seq<Turn>)
    requires Inv(s) && s.net.Receiving?
    ensures var s1, goes := ReceiveTurn(s, recv), Goes(s.tracker, s.net.slot, recv);
            Inv(s1) && if goes.Pushing? then s1.net == goes else FreesThenGoes(s1, turns, s.net.slot, goes)
  {
    ReceiveKeeps(s, recv);
    ReceiveGoes(s, recv);
    var s1 := ReceiveTurn(s, recv);
    if s1.net.Releasing? {
      ReleaseLeads(s1, turns);
    }
  }

  lemma ReleaseLoad(s: Pipe, c: Choice)
    requires Inv(s) && s.net.Releasing? && s.pool.stages[NET].Outside?
    ensures var s' := NetTurnOf(s, c);
            && Inv(s') && s'.net == s.net && s'.ring == s.ring && s'.pool.freeHead == s.pool.freeHead
            && s'.pool.stages[NET].ReleaseLoaded? && s'.pool.stages[NET].head == s.pool.freeHead
  {
    NetKeeps(s, c);
  }

  lemma ReleaseLink(s: Pipe, c: Choice)
    requires Inv(s) && s.net.Releasing? && s.pool.stages[NET].ReleaseLoaded?
    requires s.pool.stages[NET].head == s.pool.freeHead
    ensures var s' := NetTurnOf(s, c);
            && Inv(s') && s'.net == s.net && s'.ring == s.ring && s'.pool.freeHead == s.pool.freeHead
            && s'.pool.stages[NET].ReleaseLinked? && s'.pool.stages[NET].head == s.pool.freeHead
  {
    NetKeeps(s, c);
  }

  lemma ReleaseSwap(s: Pipe, c: Choice)
    requires Inv(s) && s.net.Releasing? && s.pool.stages[NET].ReleaseLinked? && !c.spurious
    requires s.pool.stages[NET].head == s.pool.freeHead
    ensures var s' := NetTurnOf(s, c);
            s'.net == Exit(s.net.after) && s'.ring == s.ring && s'.pool.freeHead == s.net.slot
  {
  }

  /** Three turns that nothing disturbs complete a release: the slot is at the front of the free list. */
  lemma ReleaseCompletes(s: Pipe, c: Choice) returns (s3: Pipe)
    requires Inv(s) && s.net.Releasing? && s.pool.stages[NET].Outside? && !c.spurious
    ensures Inv(s3) && Reaches(s, s3)
    ensures s3.net == Exit(s.net.after) && s3.ring == s.ring && s3.pool.freeHead == s.net.slot
  {
    var s1, s2, end := ThreeTurns(s, NetTurn(c));
    ReleaseLoad(s, c);
    ReleaseLink(s1, c);
    ReleaseSwap(s2, c);
    s3 := end;
  }

  // ---- Why a thread ends ----

  /** A datagram whose message count is 0xFFFF. */
  predicate IsEndMarker(bs: bytes) {
    |bs| >= 20 && bs[18] == 0xFF && bs[19] == 0xFF
  }

  ghost predicate EndArrived(arrived: seq<bytes>) {
    exists i | 0 <= i < |arrived| :: IsEndMarker(arrived[i])
  }

  ghost predicate SocketFailed(turns: seq<Turn>) {
    exists i | 0 <= i < |turns| :: turns[i].NetTurn? && turns[i].choice.recv.Failed?
  }

  /** The thread is on its way to the sentinel only after an end marker, and ends only with the sentinel, when
      the other thread has stopped, or after a socket failure. */
  ghost predicate GoodReasons(net: Net, ended: bool, stop: bool, arrived: seq<bytes>, failed: bool) {
    && (Ending(net) || ended ==> EndArrived(arrived))
    && (net.NetDone? ==> stop || ended || failed)
    && (net.Releasing? && net.after.Quit? ==> failed)
  }

  ghost predicate Reasoned(s: Pipe, failed: bool) {
    GoodReasons(s.net, INVALID in s.ring.pushed, s.stop, s.arrived, failed)
  }

  lemma ReceiveReasoned(s: Pipe, recv: Recv, failed: bool)
    requires Inv(s) && s.net.Receiving? && Reasoned(s, failed)
    ensures Reasoned(ReceiveTurn(s, recv), failed || recv.Failed?)
  {
    ReceiveGoes(s, recv);
    var s' := ReceiveTurn(s, recv);
    if recv.Got? {
      var bs := Clipped(recv.data);
      assert s'.arrived == s.arrived + [bs] && s'.arrived[|s.arrived|] == bs;
      if Ending(s'.net) {
        assert IsEndMarker(bs);
      }
    }
  }

  lemma AcquireReasoned(s: Pipe, c: Choice, failed: bool)
    requires Inv(s) && (s.net.Acquiring? || s.net.ReceivingScratch?) && Reasoned(s, failed)
    ensures Reasoned(NetTurnOf(s, c), failed)
  {
  }

  lemma PushReasoned(s: Pipe, c: Choice, failed: bool)
    requires Inv(s) && s.net.Pushing? && Reasoned(s, failed)
    ensures Reasoned(NetTurnOf(s, c), failed)
  {
  }

  lemma PushEndReasoned(s: Pipe, c: Choice, failed: bool)
    requires Inv(s) && s.net.PushingEnd? && Reasoned(s, failed)
    ensures Reasoned(NetTurnOf(s, c), failed)
  {
    if s.ring.producer.Written? {
      assert NetTurnOf(s, c).ring.pushed == s.ring.pushed + [INVALID];
    }
  }

  lemma ReleaseReasoned(s: Pipe, c: Choice, failed: bool)
    requires Inv(s) && s.net.Releasing? && Reasoned(s, failed)
    ensures Reasoned(NetTurnOf(s, c), failed)
  {
    ReleaseGoes(s, NetTurn(c));
  }

  lemma NetReasoned(s: Pipe, c: Choice, failed: bool)
    requires Inv(s) && Reasoned(s, failed)
    ensures Reasoned(NetTurnOf(s, c), failed || c.recv.Failed?)
  {
    match s.net
    case Acquiring => AcquireReasoned(s, c, failed);
    case Receiving(_) => ReceiveReasoned(s, c.recv, failed);
    case ReceivingScratch => AcquireReasoned(s, c, failed);
    case Pushing(_) => PushReasoned(s, c, failed);
    case PushingEnd => PushEndReasoned(s, c, failed);
    case Releasing(_, _) => ReleaseReasoned(s, c, failed);
    case NetDone =>
  }

  lemma MatcherReasoned(s: Pipe, c: Choice, failed: bool)
    requires Inv(s) && Reasoned(s, failed)
    ensures Reasoned(MatcherTurnOf(s, c), failed)
  {
  }

  lemma {:induction false} RunReasoned(s: Pipe, turns: seq<Turn>, failed: bool)
    requires Inv(s) && Reasoned(s, failed)
    ensures Reasoned(Run(s, turns), failed || SocketFailed(turns))
    decreases |turns|
  {
    if turns != [] {
      var turn, rest := turns[0], turns[1..];
      TurnKeeps(s, turn);
      if turn.NetTurn? {
        NetReasoned(s, turn.choice, failed);
      } else {
        MatcherReasoned(s, turn.choice, failed);
      }
      var failed' := failed || (turn.NetTurn? && turn.choice.recv.Failed?);
      RunReasoned(TakeTurn(s, turn), rest, failed');
      FailedLater(turns);
    }
  }

  lemma FailedLater(turns: seq<Turn>)
    requires turns != []
    ensures SocketFailed(turns) <==> (turns[0].NetTurn? && turns[0].choice.recv.Failed?) || SocketFailed(turns[1..])
  {
    if i :| 0 <= i < |turns| && turns[i].NetTurn? && turns[i].choice.recv.Failed? {
      assert i > 0 ==> turns[1..][i - 1] == turns[i];
    }
    if i :| 0 <= i < |turns| - 1 && turns[1..][i].NetTurn? && turns[1..][i].choice.recv.Failed? {
      assert turns[i + 1] == turns[1..][i];
    }
  }

  /** The matching thread ends only if an end marker has arrived, and the network thread only if an end marker
      has arrived or the socket has failed. */
  lemma EndsWithReason(memory: seq<bytes>, buffer: seq<uint32>, turns: seq<Turn>)
    requires CanStart(memory, buffer)
    ensures var s := Run(Start(memory, buffer), turns);
            && (s.matcher.MatcherDone? ==> EndArrived(s.arrived))
            && (s.net.NetDone? ==> EndArrived(s.arrived) || SocketFailed(turns))
  {
    RunReasoned(Start(memory, buffer), turns, false);
    var s := Run(Start(memory, buffer), turns);
    if s.stop {
      var i :| 0 <= i < |s.ring.popped| && s.ring.popped[i] == INVALID;
      assert s.ring.pushed[i] == INVALID;
    }
  }

  // ---- A network thread that dies ----

  /** Without the sentinel the matching thread goes on for ever: nothing else sets the stop flag it polls. */
  lemma {:induction false} NeverTold(s: Pipe, turns: seq<Turn>)
    requires Inv(s) && s.net.NetDone? && INVALID !in s.ring.pushed
    ensures INVALID !in Run(s, turns).ring.pushed && !Run(s, turns).matcher.MatcherDone?
    decreases |turns|
  {
    if turns != [] {
      TurnKeeps(s, turns[0]);
      NeverTold(TakeTurn(s, turns[0]), turns[1..]);
    }
  }

  predicate Stale(stage: Pools.Stage, freeHead: uint32) {
    !Current(stage, freeHead)
  }

  lemma WholePrefix<T>(p: seq<T>, q: seq<T>)
    requires p <= q
    ensures |p| == |q| ==> p == q
  {
  }

  lemma SentinelAhead(s: Pipe)
    requires Inv(s) && INVALID in s.ring.pushed && !s.matcher.MatcherDone?
    ensures |s.ring.popped| < |s.ring.pushed|
  {
    WholePrefix(s.ring.popped, s.ring.pushed);
  }

  lemma StaleTurn(s: Pipe, c: Choice)
    requires Inv(s) && Stale(s.pool.stages[MATCHER], s.pool.freeHead) && !c.spurious
    ensures var s' := MatcherTurnOf(s, c);
            && |s'.pool.stages| == 3
            && (!Stale(s'.pool.stages[MATCHER], s'.pool.freeHead)
                || (Backlog(s') == Backlog(s) && MatcherLeft(s') < MatcherLeft(s)))
  {
  }

  /** One turn of the matching thread towards the sentinel. */
  lemma TowardsEnd(s: Pipe, c: Choice)
    requires Inv(s) && s.net.NetDone? && INVALID in s.ring.pushed && !s.matcher.MatcherDone? && !c.spurious
    ensures var s' := MatcherTurnOf(s, c);
            var stale, stale' := Stale(s.pool.stages[MATCHER], s.pool.freeHead),
                                 Stale(s'.pool.stages[MATCHER], s'.pool.freeHead);
            && Inv(s') && s'.net.NetDone? && s'.ring.pushed == s.ring.pushed
            && ((stale && !stale')
                || (stale == stale' && (Backlog(s') < Backlog(s)
                                        || (Backlog(s') == Backlog(s) && MatcherLeft(s') < MatcherLeft(s)))))
  {
    MatcherKeeps(s, c);
    SentinelAhead(s);
    if Stale(s.pool.stages[MATCHER], s.pool.freeHead) {
      StaleTurn(s, c);
    } else {
      BusyAdvances(s, c, 0, 0);
    }
  }

  lemma {:induction false} ReadsToEnd(s: Pipe) returns (turns: seq<Turn>)
    requires Inv(s) && s.net.NetDone? && INVALID in s.ring.pushed
    ensures Run(s, turns).matcher.MatcherDone?
    decreases Stale(s.pool.stages[MATCHER], s.pool.freeHead), Backlog(s), MatcherLeft(s)
  {
    if s.matcher.MatcherDone? {
      turns := [];
    } else {
      var turn := MatcherTurn(Choice(false, Interrupted, false));
      TowardsEnd(s, turn.choice);
      var rest := ReadsToEnd(TakeTurn(s, turn));
      RunCons(s, turn, rest);
      turns := [turn] + rest;
    }
  }

  /** Once the network thread has ended, the matching thread can end exactly if the sentinel was pushed. */
  lemma EndsIffTold(s: Pipe)
    requires Inv(s) && s.net.NetDone?
    ensures (exists turns :: Run(s, turns).matcher.MatcherDone?) <==> INVALID in s.ring.pushed
  {
    if INVALID in s.ring.pushed {
      var turns := ReadsToEnd(s);
      assert Run(s, turns).matcher.MatcherDone?;
    } else {
      forall turns ensures !Run(s, turns).matcher.MatcherDone? {
        NeverTold(s, turns);
      }
    }
  }

  lemma FailTurn(s: Pipe, c: Choice)
    requires Inv(s) && s.net.Receiving? && c.recv.Failed?
    ensures var s' := TakeTurn(s, NetTurn(c));
            && s'.net == Releasing(s.net.slot, Quit) && s'.ring == s.ring
            && |s'.pool.stages| == 3 && s'.pool.stages[NET].Outside?
  {
  }

  lemma FailReaches(s: Pipe, c: Choice) returns (s1: Pipe)
    requires Inv(s) && s.net.Receiving? && c.recv.Failed?
    ensures Inv(s1) && Reaches(s, s1) && s1.net == Releasing(s.net.slot, Quit) && s1.ring == s.ring
    ensures s1.pool.stages[NET].Outside?
  {
    s1 := TakeTurn(s, NetTurn(c));
    OneTurn(s, NetTurn(c));
    FailTurn(s, c);
  }

  /** A socket failure at a receive is such a death. */
  lemma DiesAtReceive(s: Pipe) returns (s': Pipe)
    requires Inv(s) && s.net.Receiving?
    ensures Inv(s') && Reaches(s, s') && s'.net.NetDone? && s'.ring == s.ring
  {
    var c := Choice(false, Failed, false);
    var s1 := FailReaches(s, c);
    s' := ReleaseCompletes(s1, c);
    ReachesOn(s, s1, s');
  }

  /** It can happen in any pipeline, at the first receive. */
  lemma DiesSilently(memory: seq<bytes>, buffer: seq<uint32>) returns (s': Pipe)
    requires CanStart(memory, buffer)
    ensures Inv(s') && Reaches(Start(memory, buffer), s') && s'.net.NetDone? && INVALID !in s'.ring.pushed
  {
    var s := Start(memory, buffer);
    var s1 := AcquireOne(s);
    s' := DiesAtReceive(s1);
    ReachesOn(s, s1, s');
  }
}
