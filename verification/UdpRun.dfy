/**
  UDP mode: the packets that the matching thread pops go into an engine, message by message. The
  engine shares no state with the pipeline, so its calls come after the turns.
 */
module UdpRuns {
  import opened Words
  import opened Collections
  import opened MoldUdp64
  import opened BookSpec
  import opened OrderBooks
  import opened MatchingEngines
  import opened FileRuns
  import opened StreamLaws
  import opened UdpLaws
  import Engine = EngineSpec
  import opened Pipelines

  /** All turns of both threads. */
  method TakeTurns(first: Pipe, turns: seq<Turn>) returns (s: Pipe)
    requires Inv(first)
    ensures s == Run(first, turns)
  {
    s := first;
    for i := 0 to |turns|
      invariant Inv(s) && Run(s, turns[i..]) == Run(first, turns)
    {
      TurnKeeps(s, turns[i]);
      assert turns[i..][0] == turns[i] && turns[i..][1..] == turns[i + 1..];
      s := TakeTurn(s, turns[i]);
    }
  }

  // ---- The matching thread's loop over the packets it pops ----

  /** The messages of one packet. */
  method ServeMessages(engine: MatchingEngine, msgs: seq<bytes>, decode: bytes -> Engine.Message,
                       scratch: EngineScratch,
                       ghost course: seq<Checkpoint>)
    requires Course(course, msgs, decode) && engine.Valid() && course[0] == Checkpoint(engine.st, |engine.pool.nodes|)
    modifies engine, engine.pool, engine.sides, engine.orderMap, engine.orderMap.table, scratch
    ensures engine.Valid() && course[|msgs|] == Checkpoint(engine.st, |engine.pool.nodes|)
  {
    var i: nat := 0;
    while i != |msgs|
      invariant i <= |msgs|
      invariant engine.Valid() && course[i] == Checkpoint(engine.st, |engine.pool.nodes|)
      decreases |msgs| - i
    {
      RunAt(engine, msgs[i], decode, scratch, msgs, i, course);
      i := i + 1;
    }
  }

  lemma {:induction false} PrefixMessages(packets: seq<bytes>, k: nat)
    requires k <= |packets|
    ensures AllMessages(packets[..k]) <= AllMessages(packets)
  {
    if k == |packets| {
      assert packets[..k] == packets;
    } else {
      PrefixMessages(packets[..|packets| - 1], k);
      assert packets[..|packets| - 1][..k] == packets[..k];
    }
  }

  /** Packet k's messages follow those of the packets before it. */
  lemma NextPacket(packets: seq<bytes>, k: nat)
    requires k < |packets|
    ensures AllMessages(packets[..k + 1]) == AllMessages(packets[..k]) + MessagesOf(packets[k])
  {
    assert packets[..k + 1][..k] == packets[..k];
  }

  /** Skips the header and iterates the messages. */
  method ReadPacket(packet: bytes) returns (msgs: seq<bytes>)
    ensures msgs == MessagesOf(packet)
  {
    msgs := [];
    if |packet| >= HEADER_BYTES {
      msgs := ReadBody(packet[HEADER_BYTES..]);
    }
  }

  lemma Inside(all: seq<bytes>, before: seq<bytes>, msgs: seq<bytes>, i: nat)
    requires before + msgs <= all && i < |msgs|
    ensures all[|before| + i] == msgs[i]
  {
    assert (before + msgs)[|before| + i] == msgs[i];
  }

  lemma StretchAt(course: seq<Checkpoint>, all: seq<bytes>, decode: bytes -> Engine.Message,
                  before: seq<bytes>, msgs: seq<bytes>, i: nat)
    requires Course(course, all, decode) && before + msgs <= all && i < |msgs|
    ensures Leads(course[|before| + i], decode(msgs[i]), course[|before| + i + 1])
  {
    Inside(all, before, msgs, i);
    assert LeadsAt(course, all, decode, |before| + i);
  }

  /** A stretch of a course is a course. */
  lemma Stretch(course: seq<Checkpoint>, all: seq<bytes>, decode: bytes -> Engine.Message,
                before: seq<bytes>, msgs: seq<bytes>) returns (part: seq<Checkpoint>)
    requires Course(course, all, decode) && before + msgs <= all
    ensures Course(part, msgs, decode)
    ensures part[0] == course[|before|] && part[|msgs|] == course[|before + msgs|]
  {
    var n := |before|;
    part := course[n..n + |msgs| + 1];
    forall i {:trigger LeadsAt(part, msgs, decode, i)} | 0 <= i < |msgs| ensures LeadsAt(part, msgs, decode, i) {
      StretchAt(course, all, decode, before, msgs, i);
      assert part[i] == course[n + i] && part[i + 1] == course[n + i + 1];
    }
  }

  /** Packet k's stretch of the course. */
  lemma PacketStretch(packets: seq<bytes>, k: nat, decode: bytes -> Engine.Message, course: seq<Checkpoint>)
    returns (part: seq<Checkpoint>, n': nat)
    requires k < |packets| && Course(course, AllMessages(packets), decode)
    ensures |AllMessages(packets[..k])| < |course| && n' == |AllMessages(packets[..k + 1])| < |course|
    ensures Course(part, MessagesOf(packets[k]), decode)
    ensures part[0] == course[|AllMessages(packets[..k])|] && part[|MessagesOf(packets[k])|] == course[n']
  {
    NextPacket(packets, k);
    PrefixMessages(packets, k + 1);
    part := Stretch(course, AllMessages(packets), decode, AllMessages(packets[..k]), MessagesOf(packets[k]));
    n' := |AllMessages(packets[..k + 1])|;
  }

  /** The messages of a packet lead from one checkpoint to another. */
  ghost predicate PacketLeads(a: Checkpoint, packet: bytes, decode: bytes -> Engine.Message, b: Checkpoint) {
    exists part :: Course(part, MessagesOf(packet), decode) && part[0] == a && part[|part| - 1] == b
  }

  ghost predicate StopAt(stops: seq<Checkpoint>, packets: seq<bytes>, decode: bytes -> Engine.Message, k: nat)
    requires k < |packets| && k + 1 < |stops|
  {
    PacketLeads(stops[k], packets[k], decode, stops[k + 1])
  }

  /** The checkpoints between packets. */
  ghost predicate Stops(stops: seq<Checkpoint>, packets: seq<bytes>, decode: bytes -> Engine.Message) {
    && |stops| == |packets| + 1
    && (forall k {:trigger StopAt(stops, packets, decode, k)} | 0 <= k < |packets| ::
          StopAt(stops, packets, decode, k))
  }

  lemma MoreStops(stops: seq<Checkpoint>, packets: seq<bytes>, n: nat, decode: bytes -> Engine.Message, b: Checkpoint)
    requires n < |packets| && Stops(stops, packets[..n], decode) && PacketLeads(stops[n], packets[n], decode, b)
    ensures Stops(stops + [b], packets[..n + 1], decode)
  {
    var stops', packets' := stops + [b], packets[..n + 1];
    forall k {:trigger StopAt(stops', packets', decode, k)} | 0 <= k <= n ensures StopAt(stops', packets', decode, k) {
      assert k < n ==> StopAt(stops, packets[..n], decode, k);
    }
  }

  lemma {:induction false} FindStops(packets: seq<bytes>, n: nat, decode: bytes -> Engine.Message,
                                     course: seq<Checkpoint>)
    returns (stops: seq<Checkpoint>)
    requires n <= |packets| && Course(course, AllMessages(packets), decode)
    ensures Stops(stops, packets[..n], decode) && stops[0] == course[0]
    ensures |AllMessages(packets[..n])| < |course| && stops[n] == course[|AllMessages(packets[..n])|]
  {
    if n == 0 {
      stops := [course[0]];
    } else {
      var before := FindStops(packets, n - 1, decode, course);
      var part, m := PacketStretch(packets, n - 1, decode, course);
      MoreStops(before, packets, n - 1, decode, course[m]);
      stops := before + [course[m]];
    }
  }

  /** One packet: its messages lead to the next checkpoint. */
  method ServePacket(engine: MatchingEngine, packet: bytes, decode: bytes -> Engine.Message, scratch: EngineScratch,
                     ghost b: Checkpoint)
    requires engine.Valid() && PacketLeads(Checkpoint(engine.st, |engine.pool.nodes|), packet, decode, b)
    modifies engine, engine.pool, engine.sides, engine.orderMap, engine.orderMap.table, scratch
    ensures engine.Valid() && b == Checkpoint(engine.st, |engine.pool.nodes|)
  {
    ghost var a := Checkpoint(engine.st, |engine.pool.nodes|);
    ghost var part :| Course(part, MessagesOf(packet), decode) && part[0] == a && part[|part| - 1] == b;
    var msgs := ReadPacket(packet);
    ServeMessages(engine, msgs, decode, scratch, part);
  }

  /** Packet k of a list. */
  method ServeAt(engine: MatchingEngine, packets: seq<bytes>, k: nat, decode: bytes -> Engine.Message,
                 scratch: EngineScratch, ghost stops: seq<Checkpoint>)
    requires k < |packets| && Stops(stops, packets, decode)
    requires engine.Valid() && stops[k] == Checkpoint(engine.st, |engine.pool.nodes|)
    modifies engine, engine.pool, engine.sides, engine.orderMap, engine.orderMap.table, scratch
    ensures engine.Valid() && stops[k + 1] == Checkpoint(engine.st, |engine.pool.nodes|)
  {
    assert StopAt(stops, packets, decode, k);
    ServePacket(engine, packets[k], decode, scratch, stops[k + 1]);
  }

  method ServePackets(engine: MatchingEngine, packets: seq<bytes>, decode: bytes -> Engine.Message,
                      scratch: EngineScratch, ghost stops: seq<Checkpoint>)
    requires Stops(stops, packets, decode) && engine.Valid() && stops[0] == Checkpoint(engine.st, |engine.pool.nodes|)
    modifies engine, engine.pool, engine.sides, engine.orderMap, engine.orderMap.table, scratch
    ensures engine.Valid() && stops[|packets|] == Checkpoint(engine.st, |engine.pool.nodes|)
  {
    var k: nat := 0;
    while k != |packets|
      invariant k <= |packets|
      invariant engine.Valid() && stops[k] == Checkpoint(engine.st, |engine.pool.nodes|)
      decreases |packets| - k
    {
      ServeAt(engine, packets, k, decode, scratch, stops);
      k := k + 1;
    }
  }

  /** Packets into an engine: it ends at the fold of the specification over their messages, in order. */
  method RunPackets(engine: MatchingEngine, packets: seq<bytes>, decode: bytes -> Engine.Message,
                    scratch: EngineScratch)
    requires engine.Valid() && Engine.Admissible(engine.st, Decoded(AllMessages(packets), decode))
    modifies engine, engine.pool, engine.sides, engine.orderMap, engine.orderMap.table, scratch
    ensures engine.Valid() && engine.st == Engine.Run(old(engine.st), Decoded(AllMessages(packets), decode))
    ensures |engine.pool.nodes| ==
            Max(old(|engine.pool.nodes|), Engine.Peak(old(engine.st), Decoded(AllMessages(packets), decode)))
  {
    LiveFits(engine.Now());
    ghost var course := FindCourse(engine.st, |engine.pool.nodes|, AllMessages(packets), decode);
    ghost var stops := FindStops(packets, |packets|, decode, course);
    assert packets[..|packets|] == packets;
    ServePackets(engine, packets, decode, scratch, stops);
  }

  lemma PicksDecoded(xs: seq<bytes>, all: seq<bytes>, positions: seq<nat>, decode: bytes -> Engine.Message)
    requires Picks(xs, all, positions)
    ensures Picks(Decoded(xs, decode), Decoded(all, decode), positions)
  {
  }

  /** The messages of the packets that the matching thread has popped after these turns. */
  function Reaching(memory: seq<bytes>, buffer: seq<uint32>, turns: seq<Turn>): (msgs: seq<bytes>)
    requires CanStart(memory, buffer)
  {
    PoppedMessages(Run(Start(memory, buffer), turns))
  }

  /** Both threads, up to the packets handed to the matching thread's loop. */
  method RunPipeline(memory: seq<bytes>, buffer: seq<uint32>, turns: seq<Turn>) returns (popped: seq<bytes>)
    requires CanStart(memory, buffer)
    ensures AllMessages(popped) == Reaching(memory, buffer, turns)
  {
    var s := TakeTurns(Start(memory, buffer), turns);
    popped := s.packets[..|s.ring.popped|];
  }

  /** Runs a pipeline into an engine: it ends at the fold of the specification over the messages that reach
      it. What is asked of them is what every message must meet, and no more. */
  method RunUdp(engine: MatchingEngine, memory: seq<bytes>, buffer: seq<uint32>, turns: seq<Turn>,
                decode: bytes -> Engine.Message, scratch: EngineScratch)
    requires CanStart(memory, buffer) && engine.Valid()
    requires Engine.Admissible(engine.st, Decoded(Reaching(memory, buffer, turns), decode))
    modifies engine, engine.pool, engine.sides, engine.orderMap, engine.orderMap.table, scratch
    ensures var ms := Decoded(Reaching(memory, buffer, turns), decode);
            && engine.Valid() && engine.st == Engine.Run(old(engine.st), ms)
            && |engine.pool.nodes| == Max(old(|engine.pool.nodes|), Engine.Peak(old(engine.st), ms))
  {
    var popped := RunPipeline(memory, buffer, turns);
    RunPackets(engine, popped, decode, scratch);
  }

  /** UDP mode from program start: the arena ends as large as the most orders ever live at once. */
  method UdpFromStart(memory: seq<bytes>, buffer: seq<uint32>, turns: seq<Turn>, decode: bytes -> Engine.Message)
    returns (engine: MatchingEngine)
    requires CanStart(memory, buffer)
    requires Engine.Admissible(Engine.Initial(), Decoded(Reaching(memory, buffer, turns), decode))
    ensures var ms := Decoded(Reaching(memory, buffer, turns), decode);
            && fresh(engine) && engine.Valid() && engine.st == Engine.Run(Engine.Initial(), ms)
            && |engine.pool.nodes| == Engine.Peak(Engine.Initial(), ms)
  {
    engine := new MatchingEngine();
    var scratch := new EngineScratch();
    RunUdp(engine, memory, buffer, turns, decode, scratch);
  }

  // ---- A replayed file ----

  /** What reaches the engine of a replayed file whose messages introduce each reference once: a subsequence
      of the file, acceptable throughout, and only sound states. */
  lemma ReplayedAdmissible(memory: seq<bytes>, buffer: seq<uint32>, turns: seq<Turn>,
                           decode: bytes -> Engine.Message, msgs: seq<bytes>, maxPerPacket: nat)
    returns (positions: seq<nat>)
    requires CanStart(memory, buffer) && Sends(msgs, maxPerPacket)
    requires Replayed(turns, Replayer.Plan(msgs, maxPerPacket, 1)) && Clean(Decoded(msgs, decode))
    ensures var reaching := Reaching(memory, buffer, turns);
            && Picks(reaching, msgs, positions)
            && Engine.Admissible(Engine.Initial(), Decoded(reaching, decode))
            && Engine.Sound(Engine.Run(Engine.Initial(), Decoded(reaching, decode)))
  {
    var reaching := Reaching(memory, buffer, turns);
    positions := FileSubsequence(memory, buffer, turns, msgs, maxPerPacket);
    PicksDecoded(reaching, msgs, positions, decode);
    PartSound(Decoded(reaching, decode), Decoded(msgs, decode), positions);
  }

  /** A replayed file into a new engine, over any lossy, repeating, reordering network: the state reached is
      that of a subsequence of the file, and the arena is as large as its most live orders. */
  method RunReplayed(memory: seq<bytes>, buffer: seq<uint32>, turns: seq<Turn>, decode: bytes -> Engine.Message,
                     ghost msgs: seq<bytes>, ghost maxPerPacket: nat)
    returns (engine: MatchingEngine, ghost positions: seq<nat>)
    requires CanStart(memory, buffer) && Sends(msgs, maxPerPacket)
    requires Replayed(turns, Replayer.Plan(msgs, maxPerPacket, 1)) && Clean(Decoded(msgs, decode))
    ensures Picks(Reaching(memory, buffer, turns), msgs, positions)
    ensures var ms := Decoded(Reaching(memory, buffer, turns), decode);
            && engine.Valid() && engine.st == Engine.Run(Engine.Initial(), ms) && Engine.Sound(engine.st)
            && |engine.pool.nodes| == Engine.Peak(Engine.Initial(), ms)
  {
    positions := ReplayedAdmissible(memory, buffer, turns, decode, msgs, maxPerPacket);
    engine := UdpFromStart(memory, buffer, turns, decode);
  }

  // ---- Nothing lost ----

  /** A complete run into any engine that accepts the file: it ends where walking the file would end. */
  method RunComplete(engine: MatchingEngine, memory: seq<bytes>, buffer: seq<uint32>, turns: seq<Turn>,
                     decode: bytes -> Engine.Message, scratch: EngineScratch,
                     ghost msgs: seq<bytes>, ghost maxPerPacket: nat, ghost rx: seq<nat>)
    requires CanStart(memory, buffer) && Sends(msgs, maxPerPacket) && engine.Valid()
    requires Engine.Admissible(engine.st, Decoded(msgs, decode))
    requires Complete(Run(Start(memory, buffer), turns), msgs, maxPerPacket, rx)
    modifies engine, engine.pool, engine.sides, engine.orderMap, engine.orderMap.table, scratch
    ensures var ms := Decoded(msgs, decode);
            && engine.Valid() && engine.st == Engine.Run(old(engine.st), ms)
            && |engine.pool.nodes| == Max(old(|engine.pool.nodes|), Engine.Peak(old(engine.st), ms))
  {
    UdpEqualsFile(memory, buffer, turns, msgs, maxPerPacket, rx);
    RunUdp(engine, memory, buffer, turns, decode, scratch);
  }

  /** A complete run from program start: the state and the arena are those of file mode from program start,
      `FileRuns.RunFromStart`. */
  method CompleteFromStart(memory: seq<bytes>, buffer: seq<uint32>, turns: seq<Turn>,
                           decode: bytes -> Engine.Message,
                           ghost msgs: seq<bytes>, ghost maxPerPacket: nat, ghost rx: seq<nat>)
    returns (engine: MatchingEngine)
    requires CanStart(memory, buffer) && Sends(msgs, maxPerPacket)
    requires Engine.Admissible(Engine.Initial(), Decoded(msgs, decode))
    requires Complete(Run(Start(memory, buffer), turns), msgs, maxPerPacket, rx)
    ensures var ms := Decoded(msgs, decode);
            && fresh(engine) && engine.Valid() && engine.st == Engine.Run(Engine.Initial(), ms)
            && |engine.pool.nodes| == Engine.Peak(Engine.Initial(), ms)
  {
    UdpEqualsFile(memory, buffer, turns, msgs, maxPerPacket, rx);
    engine := UdpFromStart(memory, buffer, turns, decode);
  }
}
