/**
  The UDP pipeline: the network thread and the matching thread as interleaved atomic steps over
  the packet pool and the ring. What `recv` returns and when a weak compare-and-swap fails
  spuriously are free choices.
 */
module Pipelines {
  import opened Words
  import opened MoldUdp64
  import opened FeedHandlers
  import opened OrderPools
  import Rings = SpscRings
  import Pools = PacketPools

  /** Who holds a slot outside the free list. */
  const NET: nat := 0
  const MATCHER: nat := 1
  const RING: nat := 2

  const MAX_PACKET_BYTES: nat := 2048

  datatype After = Loop | SendEnd | Quit

  /** Program points of the network thread. */
  datatype Net =
    | Acquiring
    | Receiving(slot: uint32)
    | ReceivingScratch
    | Pushing(slot: uint32)
    | PushingEnd
    | Releasing(slot: uint32, after: After)
    | NetDone

  /** Program points of the matching thread. */
  datatype Matcher =
    | Popping
    | Reading(slot: uint32, cursor: nat)
    | Returning(slot: uint32)
    | MatcherDone

  datatype Recv = Got(data: bytes) | Interrupted | Failed

  datatype Choice = Choice(spurious: bool, recv: Recv, checkStop: bool)

  datatype Turn = NetTurn(choice: Choice) | MatcherTurn(choice: Choice)

  /** `arrived`, `packets` and `processed` are histories: datagrams received into slots, the bytes
      behind each value pushed (none for the sentinel), and messages handed to the engine. */
  datatype Pipe = Pipe(
    pool: Pools.Pool, ring: Rings.Ring<uint32>, memory: seq<bytes>, tracker: Tracker,
    net: Net, matcher: Matcher, stop: bool,
    arrived: seq<bytes>, packets: seq<bytes>, processed: seq<bytes>)

  /** The end marker has arrived and the sentinel is still to be pushed. */
  predicate Ending(net: Net) {
    net.PushingEnd? || (net.Releasing? && net.after.SendEnd?)
  }

  // ---- What every step keeps ----

  function NetSlot(net: Net): (slot: int) {
    if net.Receiving? || net.Pushing? || net.Releasing? then net.slot else -1
  }

  function MatcherSlot(m: Matcher): (slot: int) {
    if m.Reading? || m.Returning? then m.slot else -1
  }

  /** Thread t holds exactly this slot; -1 for none. */
  ghost predicate Holds(owner: seq<Pools.Owner>, t: nat, slot: int) {
    && (slot == -1 || 0 <= slot < |owner|)
    && (forall n | 0 <= n < |owner| :: owner[n] == Pools.With(t) <==> n == slot)
  }

  /** Values pushed and not yet popped. */
  ghost function Unread(pushed: seq<uint32>, popped: nat): (s: seq<uint32>)
    requires popped <= |pushed|
  {
    pushed[popped..]
  }

  /** The slots in the ring are exactly those the ring holds, each once. */
  ghost predicate RingHolds(owner: seq<Pools.Owner>, unread: seq<uint32>) {
    && Distinct(unread)
    && (forall i | 0 <= i < |unread| :: unread[i] < |owner| || unread[i] == INVALID)
    && (forall n | 0 <= n < |owner| :: owner[n] == Pools.With(RING) <==> n in unread)
  }

  /** Every slot is free, with the network thread, with the matcher, or in the ring. */
  ghost predicate Partitioned(owner: seq<Pools.Owner>, net: Net, matcher: Matcher, unread: seq<uint32>) {
    && Holds(owner, NET, NetSlot(net)) && Holds(owner, MATCHER, MatcherSlot(matcher)) && RingHolds(owner, unread)
    && (forall n | 0 <= n < |owner| ::
          owner[n] in {Pools.Listed, Pools.With(NET), Pools.With(MATCHER), Pools.With(RING)})
  }

  /** The network thread is inside at most one pool or ring operation, the one its program point says. */
  ghost predicate NetAt(net: Net, stage: Pools.Stage, producer: Rings.Producer<uint32>) {
    match net
    case Acquiring => !stage.ReleaseLoaded? && !stage.ReleaseLinked? && producer.Ready?
    case Receiving(_) => stage.Outside? && producer.Ready?
    case ReceivingScratch => stage.Outside? && producer.Ready?
    case Pushing(slot) => stage.Outside? && (producer.Ready? || producer.value == slot)
    case PushingEnd => stage.Outside? && (producer.Ready? || producer.value == INVALID)
    case Releasing(slot, _) => ReleaseOf(stage, slot) && producer.Ready?
    case NetDone => stage.Outside? && producer.Ready?
  }

  ghost predicate ReleaseOf(stage: Pools.Stage, slot: uint32) {
    stage.Outside? || ((stage.ReleaseLoaded? || stage.ReleaseLinked?) && stage.idx == slot)
  }

  ghost predicate MatcherAt(m: Matcher, stage: Pools.Stage, consumer: Rings.Consumer<uint32>) {
    match m
    case Popping => stage.Outside?
    case Reading(_, _) => stage.Outside? && consumer.Waiting?
    case Returning(slot) => ReleaseOf(stage, slot) && consumer.Waiting?
    case MatcherDone => stage.Outside? && consumer.Waiting?
  }

  ghost predicate PoolFine(p: Pools.Pool) {
    Pools.Sound(p, NET) && |p.stages| == 3 && p.stages[RING].Outside?
  }

  /** The i-th value pushed carries packet i: its slot still has the bytes. */
  ghost predicate Carried(memory: seq<bytes>, pushed: seq<uint32>, packets: seq<bytes>, i: nat)
    requires i < |pushed| == |packets|
  {
    if pushed[i] == INVALID then packets[i] == []
    else pushed[i] < |memory| && |packets[i]| >= HEADER_BYTES && memory[pushed[i]] == packets[i]
  }

  ghost predicate ContentsKept(memory: seq<bytes>, pushed: seq<uint32>, popped: nat, packets: seq<bytes>) {
    && |packets| == |pushed|
    && (forall i {:trigger Carried(memory, pushed, packets, i)} | popped <= i < |pushed| ::
          Carried(memory, pushed, packets, i))
  }

  function MessagesOf(packet: bytes): (msgs: seq<bytes>) {
    if |packet| < HEADER_BYTES then [] else Frames(packet[HEADER_BYTES..])
  }

  function AllMessages(packets: seq<bytes>): (msgs: seq<bytes>) {
    if packets == [] then [] else AllMessages(packets[..|packets| - 1]) + MessagesOf(packets[|packets| - 1])
  }

  /** What the engine has been given: all messages of the packets popped, but for those still ahead
      of the reading cursor; and the bytes being read are those that were pushed. */
  ghost predicate ProcessedFine(memory: seq<bytes>, matcher: Matcher, popped: nat, packets: seq<bytes>,
                                processed: seq<bytes>) {
    && popped <= |packets|
    && if matcher.Reading? then
         && popped > 0 && matcher.slot < |memory| && memory[matcher.slot] == packets[popped - 1]
         && HEADER_BYTES <= matcher.cursor <= |memory[matcher.slot]|
         && processed + Frames(memory[matcher.slot][matcher.cursor..]) == AllMessages(packets[..popped])
       else processed == AllMessages(packets[..popped])
  }

  /** The sentinel is pushed last, by a thread that then ends; popping it ends the matcher. */
  ghost predicate EndFine(net: Net, matcher: Matcher, stop: bool, pushed: seq<uint32>, popped: seq<uint32>) {
    && (INVALID in pushed ==> net.NetDone? && pushed[|pushed| - 1] == INVALID)
    && (forall i | 0 <= i < |pushed| - 1 :: pushed[i] != INVALID)
    && (stop <==> matcher.MatcherDone?) && (stop <==> INVALID in popped)
  }

  /** All but where the two threads stand. */
  ghost predicate Core(s: Pipe) {
    match s
    case Pipe(pool, ring, memory, _, net, matcher, stop, _, packets, processed) =>
      && PoolFine(pool) && Rings.Sound(ring) && |memory| == |pool.owner|
      && Partitioned(pool.owner, net, matcher, Unread(ring.pushed, |ring.popped|))
      && ContentsKept(memory, ring.pushed, |ring.popped|, packets)
      && ProcessedFine(memory, matcher, |ring.popped|, packets, processed)
      && (net.Pushing? ==> |memory[net.slot]| >= HEADER_BYTES)
      && EndFine(net, matcher, stop, ring.pushed, ring.popped)
  }

  ghost predicate Inv(s: Pipe) {
    match s
    case Pipe(pool, ring, _, _, net, matcher, _, _, _, _) =>
      && Core(s)
      && NetAt(net, pool.stages[NET], ring.producer)
      && MatcherAt(matcher, pool.stages[MATCHER], ring.consumer)
  }

  ghost predicate SameSizes(s: Pipe, s': Pipe) {
    |s'.pool.owner| == |s.pool.owner| && |s'.ring.buffer| == |s.ring.buffer|
  }

  /** Nothing received, tracked or pushed. */
  ghost predicate SameFeed(s: Pipe, s': Pipe) {
    && s'.tracker == s.tracker && s'.memory == s.memory && s'.arrived == s.arrived
    && s'.packets == s.packets && s'.ring.pushed == s.ring.pushed
  }

  /** Arrivals and drops only accumulate. */
  ghost predicate Grows(s: Pipe, s': Pipe) {
    s.arrived <= s'.arrived && s.tracker.stats.packetsDropped <= s'.tracker.stats.packetsDropped
  }

  // ---- The network thread ----

  function PoolTurn(s: Pipe, t: nat, a: Pools.Action): (s': Pipe)
    requires Pools.InBounds(s.pool) && Pools.Enabled(s.pool, Pools.Move(t, a), {t})
    ensures SameFeed(s, s')
    ensures SameSizes(s, s')
  {
    s.(pool := Pools.Apply(s.pool, Pools.Move(t, a)))
  }

  function RingTurn(s: Pipe, a: Rings.Action<uint32>): (s': Pipe)
    requires Rings.InBounds(s.ring) && Rings.Enabled(s.ring, a)
    ensures !a.PushStore? ==> SameFeed(s, s')
    ensures SameSizes(s, s')
  {
    s.(ring := Rings.Apply(s.ring, a))
  }

  /** acquire() gave up: no free slot. */
  function OrScratch(s: Pipe): (s': Pipe)
    requires |s.pool.stages| == 3
    ensures SameFeed(s, s')
    ensures SameSizes(s, s')
  {
    if s.pool.stages[NET].Outside? then s.(net := ReceivingScratch) else s
  }

  function AcquireTurn(s: Pipe, spurious: bool): (s': Pipe)
    requires Inv(s) && s.net.Acquiring?
    ensures SameFeed(s, s') && !s'.net.Pushing?
    ensures SameSizes(s, s')
  {
    var stage := s.pool.stages[NET];
    if stage.AcquireLoaded? then PoolTurn(s, NET, Pools.ReadNext)
    else if stage.AcquireRead? then
      var s' := PoolTurn(s, NET, Pools.CasAcquire(spurious));
      if !spurious && s.pool.freeHead == stage.head then s'.(net := Receiving(stage.head)) else OrScratch(s')
    else if s.stop then s.(net := NetDone) else OrScratch(PoolTurn(s, NET, Pools.LoadToAcquire))
  }

  function Clipped(data: bytes): (bs: bytes)
    ensures |bs| <= MAX_PACKET_BYTES
  {
    if |data| <= MAX_PACKET_BYTES then data else data[..MAX_PACKET_BYTES]
  }

  /** Where the network thread goes with a received packet. */
  function Routed(slot: uint32, o: Outcome): (net: Net) {
    match o
    case Pushed => Pushing(slot)
    case Ended => Releasing(slot, SendEnd)
    case _ => Releasing(slot, Loop)
  }

  function ReceiveTurn(s: Pipe, recv: Recv): (s': Pipe)
    requires Inv(s) && s.net.Receiving?
    ensures Grows(s, s')
    ensures SameSizes(s, s')
  {
    var slot := s.net.slot;
    match recv
    case Interrupted => s.(net := Releasing(slot, Loop))
    case Failed => s.(net := Releasing(slot, Quit))
    case Got(data) =>
      var bs := Clipped(data);
      var s' := s.(memory := s.memory[slot := bs], arrived := s.arrived + [bs]);
      if |bs| < HEADER_BYTES then s'.(net := Releasing(slot, Loop))
      else
        var a := Packet(HeaderOf(bs), |bs|, true);
        s'.(tracker := Track(s.tracker, a), net := Routed(slot, Judge(s.tracker, a)))
  }

  function ScratchTurn(s: Pipe, recv: Recv): (s': Pipe)
    requires s.net.ReceivingScratch?
    ensures Grows(s, s')
    ensures SameSizes(s, s')
  {
    if recv.Got? && recv.data != []
    then s.(tracker := Track(s.tracker, Overrun(|Clipped(recv.data)|)), net := Acquiring)
    else s.(net := Acquiring)
  }

  function Dropped(t: Tracker): (t': Tracker) {
    t.(stats := t.stats.(packetsDropped := t.stats.packetsDropped + 1))
  }

  function PushTurn(s: Pipe): (s': Pipe)
    requires Inv(s) && s.net.Pushing?
    ensures Grows(s, s')
    ensures SameSizes(s, s')
  {
    var slot := s.net.slot;
    match s.ring.producer
    case Ready => RingTurn(s, Rings.PushLoadTail(slot))
    case TailLoaded(_, _) =>
      var s' := RingTurn(s, Rings.PushLoadHead);
      if s'.ring.producer.Ready? then s'.(net := Releasing(slot, Loop), tracker := Dropped(s.tracker)) else s'
    case RoomSeen(_, _, _) => RingTurn(s, Rings.PushWrite)
    case Written(_, _) =>
      var s' := RingTurn(PoolTurn(s, NET, Pools.Pass(RING, slot)), Rings.PushStore);
      s'.(net := Acquiring, packets := s.packets + [s.memory[slot]])
  }

  /** Pushes the end-of-session sentinel, retrying while the ring is full. */
  function PushEndTurn(s: Pipe): (s': Pipe)
    requires Inv(s) && s.net.PushingEnd?
    ensures Grows(s, s')
    ensures SameSizes(s, s')
  {
    match s.ring.producer
    case Ready => RingTurn(s, Rings.PushLoadTail(INVALID))
    case TailLoaded(_, _) =>
      var s' := RingTurn(s, Rings.PushLoadHead);
      if s'.ring.producer.Ready? && s.stop then s'.(net := NetDone) else s'
    case RoomSeen(_, _, _) => RingTurn(s, Rings.PushWrite)
    case Written(_, _) => RingTurn(s, Rings.PushStore).(net := NetDone, packets := s.packets + [[]])
  }

  function Afterwards(after: After): (net: Net) {
    match after
    case Loop => Acquiring
    case SendEnd => PushingEnd
    case Quit => NetDone
  }

  function ReleaseTurn(s: Pipe, spurious: bool): (s': Pipe)
    requires Inv(s) && s.net.Releasing?
    ensures SameFeed(s, s') && !s'.net.Pushing?
    ensures SameSizes(s, s')
  {
    var stage := s.pool.stages[NET];
    if stage.ReleaseLoaded? then PoolTurn(s, NET, Pools.WriteLink)
    else if stage.ReleaseLinked? then
      var s' := PoolTurn(s, NET, Pools.CasRelease(spurious));
      if s'.pool.stages[NET].Outside? then s'.(net := Afterwards(s.net.after)) else s'
    else PoolTurn(s, NET, Pools.LoadToRelease(s.net.slot))
  }

  // ---- The matching thread ----

  function PopTurn(s: Pipe, checkStop: bool): (s': Pipe)
    requires Inv(s) && s.matcher.Popping?
    ensures SameFeed(s, s') && s'.net == s.net
    ensures SameSizes(s, s')
  {
    match s.ring.consumer
    case Waiting => RingTurn(s, Rings.PopLoadHead)
    case HeadLoaded(_) =>
      var s' := RingTurn(s, Rings.PopLoadTail);
      if s'.ring.consumer.Waiting? && checkStop && s.stop then s'.(matcher := MatcherDone) else s'
    case ItemSeen(_) => RingTurn(s, Rings.PopRead)
    case ItemRead(_, item) =>
      if item == INVALID then RingTurn(s, Rings.PopStore).(matcher := MatcherDone, stop := true)
      else
        RingTurn(PoolTurn(s, RING, Pools.Pass(MATCHER, item)), Rings.PopStore).(
          matcher := Reading(item, HEADER_BYTES))
  }

  /** Bytes of the frame at a cursor into a packet; None when no complete message is left. */
  function FrameAt(packet: bytes, cursor: nat): (n: Option<nat>)
    requires cursor <= |packet|
    ensures n.Some? ==> n.value >= 2 && cursor + n.value <= |packet|
  {
    var ahead := packet[cursor..];
    if |ahead| < 2 || |ahead| < 2 + FrontLength(ahead) then None else Some(2 + FrontLength(ahead))
  }

  /** One call of the message iterator, and the engine if there is a message. */
  function ReadNext(packet: bytes, m: Matcher, processed: seq<bytes>): (r: (Matcher, seq<bytes>))
    requires m.Reading? && m.cursor <= |packet|
  {
    match FrameAt(packet, m.cursor)
    case None => (Returning(m.slot), processed)
    case Some(n) => (Reading(m.slot, m.cursor + n), processed + [packet[m.cursor + 2..m.cursor + n]])
  }

  function ReadTurn(s: Pipe): (s': Pipe)
    requires Inv(s) && s.matcher.Reading?
    ensures SameFeed(s, s') && s'.net == s.net
    ensures SameSizes(s, s')
  {
    var r := ReadNext(s.memory[s.matcher.slot], s.matcher, s.processed);
    s.(matcher := r.0, processed := r.1)
  }

  function ReturnTurn(s: Pipe, spurious: bool): (s': Pipe)
    requires Inv(s) && s.matcher.Returning?
    ensures SameFeed(s, s') && s'.net == s.net
    ensures SameSizes(s, s')
  {
    var stage := s.pool.stages[MATCHER];
    if stage.ReleaseLoaded? then PoolTurn(s, MATCHER, Pools.WriteLink)
    else if stage.ReleaseLinked? then
      var s' := PoolTurn(s, MATCHER, Pools.CasRelease(spurious));
      if s'.pool.stages[MATCHER].Outside? then s'.(matcher := Popping) else s'
    else PoolTurn(s, MATCHER, Pools.LoadToRelease(s.matcher.slot))
  }

  function NetTurnOf(s: Pipe, c: Choice): (s': Pipe)
    requires Inv(s)
    ensures Grows(s, s')
    ensures SameSizes(s, s')
  {
    match s.net
    case Acquiring => AcquireTurn(s, c.spurious)
    case Receiving(_) => ReceiveTurn(s, c.recv)
    case ReceivingScratch => ScratchTurn(s, c.recv)
    case Pushing(_) => PushTurn(s)
    case PushingEnd => PushEndTurn(s)
    case Releasing(_, _) => ReleaseTurn(s, c.spurious)
    case NetDone => s
  }

  function MatcherTurnOf(s: Pipe, c: Choice): (s': Pipe)
    requires Inv(s)
    ensures SameFeed(s, s') && s'.net == s.net
    ensures SameSizes(s, s')
  {
    match s.matcher
    case Popping => PopTurn(s, c.checkStop)
    case Reading(_, _) => ReadTurn(s)
    case Returning(_) => ReturnTurn(s, c.spurious)
    case MatcherDone => s
  }

  function TakeTurn(s: Pipe, turn: Turn): (s': Pipe)
    requires Inv(s)
    ensures Grows(s, s')
    ensures SameSizes(s, s')
  {
    if turn.NetTurn? then NetTurnOf(s, turn.choice) else MatcherTurnOf(s, turn.choice)
  }

  // ---- Every turn keeps the invariant ----

  lemma PoolKeeps(p: Pools.Pool, t: nat, a: Pools.Action)
    requires PoolFine(p) && Pools.Enabled(p, Pools.Move(t, a), {NET}) && (t == RING ==> a.Pass?)
    ensures PoolFine(Pools.Apply(p, Pools.Move(t, a)))
  {
    Pools.StepSound(p, Pools.Move(t, a), NET);
  }

  /** Pool steps before a swap succeeds change no ownership. */
  lemma PoolQuiet(s: Pipe, t: nat, a: Pools.Action)
    requires Core(s) && Pools.Enabled(s.pool, Pools.Move(t, a), {NET}) && t != RING
    requires Pools.Apply(s.pool, Pools.Move(t, a)).owner == s.pool.owner
    ensures Core(PoolTurn(s, t, a))
  {
    PoolKeeps(s.pool, t, a);
  }

  /** Taking a free slot. */
  lemma PartitionAcquire(owner: seq<Pools.Owner>, matcher: Matcher, unread: seq<uint32>, slot: uint32)
    requires Partitioned(owner, Acquiring, matcher, unread) && slot < |owner| && owner[slot] == Pools.Listed
    ensures Partitioned(owner[slot := Pools.With(NET)], Receiving(slot), matcher, unread)
  {
  }

  lemma AcquiredKeeps(s: Pipe)
    requires Inv(s) && s.net.Acquiring? && s.pool.stages[NET].AcquireRead?
    requires s.pool.freeHead == s.pool.stages[NET].head
    ensures Inv(AcquireTurn(s, false))
  {
    assert Pools.StageSound(s.pool, NET, NET);
    PoolKeeps(s.pool, NET, Pools.CasAcquire(false));
    PartitionAcquire(s.pool.owner, s.matcher, Unread(s.ring.pushed, |s.ring.popped|), s.pool.freeHead);
  }

  lemma AcquireRetryKeeps(s: Pipe, spurious: bool)
    requires Inv(s) && s.net.Acquiring? && s.pool.stages[NET].AcquireRead?
    requires spurious || s.pool.freeHead != s.pool.stages[NET].head
    ensures Inv(AcquireTurn(s, spurious))
  {
    PoolQuiet(s, NET, Pools.CasAcquire(spurious));
  }

  lemma AcquireKeeps(s: Pipe, spurious: bool)
    requires Inv(s) && s.net.Acquiring?
    ensures Inv(AcquireTurn(s, spurious))
  {
    var stage := s.pool.stages[NET];
    if stage.AcquireLoaded? {
      PoolQuiet(s, NET, Pools.ReadNext);
    } else if stage.AcquireRead? {
      if !spurious && s.pool.freeHead == stage.head {
        AcquiredKeeps(s);
      } else {
        AcquireRetryKeeps(s, spurious);
      }
    } else if !s.stop {
      PoolQuiet(s, NET, Pools.LoadToAcquire);
    }
  }

  lemma ReceiveKeeps(s: Pipe, recv: Recv)
    requires Inv(s) && s.net.Receiving?
    ensures Inv(ReceiveTurn(s, recv))
  {
    MemoryKept(s, ReceiveTurn(s, recv).memory);
  }

  /** Writing the network thread's own slot touches nothing in the ring or under the reader. */
  lemma MemoryKept(s: Pipe, memory: seq<bytes>)
    requires Inv(s) && s.net.Receiving? && |memory| == |s.memory|
    requires forall n | 0 <= n < |memory| && n != s.net.slot :: memory[n] == s.memory[n]
    ensures ContentsKept(memory, s.ring.pushed, |s.ring.popped|, s.packets)
    ensures ProcessedFine(memory, s.matcher, |s.ring.popped|, s.packets, s.processed)
  {
    forall i {:trigger Carried(memory, s.ring.pushed, s.packets, i)} | |s.ring.popped| <= i < |s.ring.pushed|
      ensures Carried(memory, s.ring.pushed, s.packets, i)
    {
      assert Carried(s.memory, s.ring.pushed, s.packets, i);
      var x := s.ring.pushed[i];
      assert x == Unread(s.ring.pushed, |s.ring.popped|)[i - |s.ring.popped|];
      assert x != INVALID ==> s.pool.owner[x] == Pools.With(RING);
    }
    assert s.matcher.Reading? ==> s.pool.owner[s.matcher.slot] == Pools.With(MATCHER);
  }

  /** Ring steps before the final store change no history. */
  lemma RingQuiet(s: Pipe, a: Rings.Action<uint32>)
    requires Core(s) && Rings.Enabled(s.ring, a) && !a.PushStore? && !a.PopStore?
    ensures Core(RingTurn(s, a))
  {
    Rings.StepSound(s.ring, a);
  }

  /** Handing the slot to the ring. */
  lemma PartitionPush(owner: seq<Pools.Owner>, slot: uint32, matcher: Matcher, unread: seq<uint32>)
    requires Partitioned(owner, Pushing(slot), matcher, unread) && |owner| <= INVALID
    ensures Partitioned(owner[slot := Pools.With(RING)], Acquiring, matcher, unread + [slot])
  {
    DistinctSnoc(unread, slot);
  }

  lemma DistinctSnoc<T>(s: seq<T>, x: T)
    requires Distinct(s) && x !in s
    ensures Distinct(s + [x])
  {
    forall i: nat, j: nat | i <= |s| && j <= |s| ensures Differ(s + [x], i, j) {
      if i < |s| && j < |s| { assert Differ(s, i, j); }
    }
  }

  lemma ContentsPush(memory: seq<bytes>, pushed: seq<uint32>, popped: nat, packets: seq<bytes>, x: uint32,
                     packet: bytes)
    requires popped <= |pushed| && ContentsKept(memory, pushed, popped, packets)
    requires if x == INVALID then packet == []
             else x < |memory| && |packet| >= HEADER_BYTES && memory[x] == packet
    ensures ContentsKept(memory, pushed + [x], popped, packets + [packet])
  {
    var pushed', packets' := pushed + [x], packets + [packet];
    forall i {:trigger Carried(memory, pushed', packets', i)} | popped <= i < |pushed'|
      ensures Carried(memory, pushed', packets', i)
    {
      assert i < |pushed| ==> Carried(memory, pushed, packets, i);
    }
  }

  lemma PushStoreKeeps(s: Pipe)
    requires Inv(s) && s.net.Pushing? && s.ring.producer.Written?
    ensures Inv(PushTurn(s))
  {
    var slot, pushed, popped := s.net.slot, s.ring.pushed, |s.ring.popped|;
    PoolKeeps(s.pool, NET, Pools.Pass(RING, slot));
    Rings.StepSound(s.ring, Rings.PushStore);
    PartitionPush(s.pool.owner, slot, s.matcher, Unread(pushed, popped));
    assert Unread(pushed + [slot], popped) == Unread(pushed, popped) + [slot];
    ContentsPush(s.memory, pushed, popped, s.packets, slot, s.memory[slot]);
    assert (s.packets + [s.memory[slot]])[..popped] == s.packets[..popped];
  }

  lemma PushHeadKeeps(s: Pipe)
    requires Inv(s) && s.net.Pushing? && s.ring.producer.TailLoaded?
    ensures Inv(PushTurn(s))
  {
    RingQuiet(s, Rings.PushLoadHead);
  }

  lemma PushKeeps(s: Pipe)
    requires Inv(s) && s.net.Pushing?
    ensures Inv(PushTurn(s))
  {
    match s.ring.producer
    case Ready => RingQuiet(s, Rings.PushLoadTail(s.net.slot));
    case TailLoaded(_, _) => PushHeadKeeps(s);
    case RoomSeen(_, _, _) => RingQuiet(s, Rings.PushWrite);
    case Written(_, _) => PushStoreKeeps(s);
  }

  lemma PushEndStoreKeeps(s: Pipe)
    requires Inv(s) && s.net.PushingEnd? && s.ring.producer.Written?
    ensures Inv(PushEndTurn(s))
  {
    var pushed, popped := s.ring.pushed, |s.ring.popped|;
    Rings.StepSound(s.ring, Rings.PushStore);
    DistinctSnoc(Unread(pushed, popped), INVALID);
    assert Unread(pushed + [INVALID], popped) == Unread(pushed, popped) + [INVALID];
    ContentsPush(s.memory, pushed, popped, s.packets, INVALID, []);
    assert (s.packets + [[]])[..popped] == s.packets[..popped];
  }

  lemma PushEndKeeps(s: Pipe)
    requires Inv(s) && s.net.PushingEnd?
    ensures Inv(PushEndTurn(s))
  {
    match s.ring.producer
    case Ready => RingQuiet(s, Rings.PushLoadTail(INVALID));
    case TailLoaded(_, _) => RingQuiet(s, Rings.PushLoadHead);
    case RoomSeen(_, _, _) => RingQuiet(s, Rings.PushWrite);
    case Written(_, _) => PushEndStoreKeeps(s);
  }

  lemma PartitionNetRelease(owner: seq<Pools.Owner>, net: Net, matcher: Matcher, unread: seq<uint32>, slot: uint32)
    requires Partitioned(owner, net, matcher, unread) && NetSlot(net) == slot
    ensures Partitioned(owner[slot := Pools.Listed], Acquiring, matcher, unread)
  {
    assert owner[slot] == Pools.With(NET);
  }

  lemma PartitionReturn(owner: seq<Pools.Owner>, net: Net, matcher: Matcher, unread: seq<uint32>, slot: uint32)
    requires Partitioned(owner, net, matcher, unread) && MatcherSlot(matcher) == slot
    ensures Partitioned(owner[slot := Pools.Listed], net, Popping, unread)
  {
    assert owner[slot] == Pools.With(MATCHER);
  }

  lemma ReleasedKeeps(s: Pipe)
    requires Inv(s) && s.net.Releasing? && s.pool.stages[NET].ReleaseLinked?
    requires s.pool.freeHead == s.pool.stages[NET].head
    ensures Inv(ReleaseTurn(s, false))
  {
    PoolKeeps(s.pool, NET, Pools.CasRelease(false));
    PartitionNetRelease(s.pool.owner, s.net, s.matcher, Unread(s.ring.pushed, |s.ring.popped|), s.net.slot);
  }

  lemma ReleaseKeeps(s: Pipe, spurious: bool)
    requires Inv(s) && s.net.Releasing?
    ensures Inv(ReleaseTurn(s, spurious))
  {
    var stage := s.pool.stages[NET];
    if stage.ReleaseLoaded? {
      PoolQuiet(s, NET, Pools.WriteLink);
    } else if stage.ReleaseLinked? {
      if !spurious && s.pool.freeHead == stage.head {
        ReleasedKeeps(s);
      } else {
        PoolQuiet(s, NET, Pools.CasRelease(spurious));
      }
    } else {
      PoolQuiet(s, NET, Pools.LoadToRelease(s.net.slot));
    }
  }

  lemma PopStoreKeeps(s: Pipe, checkStop: bool)
    requires Inv(s) && s.matcher.Popping? && s.ring.consumer.ItemRead? && s.ring.consumer.item != INVALID
    ensures Inv(PopTurn(s, checkStop))
  {
    var slot, pushed, popped := s.ring.consumer.item, s.ring.pushed, |s.ring.popped|;
    PartitionPop(s.pool.owner, s.net, Unread(pushed, popped));
    assert Unread(pushed, popped)[1..] == Unread(pushed, popped + 1);
    PoolKeeps(s.pool, RING, Pools.Pass(MATCHER, slot));
    Rings.StepSound(s.ring, Rings.PopStore);
    assert Carried(s.memory, pushed, s.packets, popped);
    StartReading(s.memory, slot, popped, s.packets, s.processed);
  }

  /** Nothing of a packet just popped has been processed. */
  lemma StartReading(memory: seq<bytes>, slot: uint32, popped: nat, packets: seq<bytes>, processed: seq<bytes>)
    requires ProcessedFine(memory, Popping, popped, packets, processed) && popped < |packets|
    requires slot < |memory| && memory[slot] == packets[popped] && |packets[popped]| >= HEADER_BYTES
    ensures ProcessedFine(memory, Reading(slot, HEADER_BYTES), popped + 1, packets, processed)
  {
    assert packets[..popped + 1][..popped] == packets[..popped];
  }

  /** Taking the oldest slot from the ring. */
  lemma PartitionPop(owner: seq<Pools.Owner>, net: Net, unread: seq<uint32>)
    requires Partitioned(owner, net, Popping, unread) && |owner| <= INVALID && unread != []
    ensures unread[0] == INVALID ==> Partitioned(owner, net, MatcherDone, unread[1..])
    ensures unread[0] != INVALID ==>
              && unread[0] < |owner| && owner[unread[0]] == Pools.With(RING)
              && Partitioned(owner[unread[0] := Pools.With(MATCHER)], net, Reading(unread[0], HEADER_BYTES),
                             unread[1..])
  {
    DistinctTail(unread);
    assert forall x | x in unread :: x == unread[0] || x in unread[1..];
  }

  lemma PopEndKeeps(s: Pipe, checkStop: bool)
    requires Inv(s) && s.matcher.Popping? && s.ring.consumer.ItemRead? && s.ring.consumer.item == INVALID
    ensures Inv(PopTurn(s, checkStop))
  {
    var pushed, popped := s.ring.pushed, |s.ring.popped|;
    PartitionPop(s.pool.owner, s.net, Unread(pushed, popped));
    assert Unread(pushed, popped)[1..] == Unread(pushed, popped + 1);
    Rings.StepSound(s.ring, Rings.PopStore);
    assert Carried(s.memory, pushed, s.packets, popped);
    NothingToRead(s.memory, popped, s.packets, s.processed);
  }

  /** The sentinel carries no messages. */
  lemma NothingToRead(memory: seq<bytes>, popped: nat, packets: seq<bytes>, processed: seq<bytes>)
    requires ProcessedFine(memory, Popping, popped, packets, processed) && popped < |packets| && packets[popped] == []
    ensures ProcessedFine(memory, MatcherDone, popped + 1, packets, processed)
  {
    assert packets[..popped + 1][..popped] == packets[..popped];
  }

  lemma PopKeeps(s: Pipe, checkStop: bool)
    requires Inv(s) && s.matcher.Popping?
    ensures Inv(PopTurn(s, checkStop))
  {
    match s.ring.consumer
    case Waiting => RingQuiet(s, Rings.PopLoadHead);
    case HeadLoaded(_) => RingQuiet(s, Rings.PopLoadTail);
    case ItemSeen(_) => RingQuiet(s, Rings.PopRead);
    case ItemRead(_, item) =>
      if item == INVALID { PopEndKeeps(s, checkStop); } else { PopStoreKeeps(s, checkStop); }
  }

  /** One iterator call moves one message from ahead of the cursor to the engine, or finds none. */
  lemma ReadFine(memory: seq<bytes>, m: Matcher, popped: nat, packets: seq<bytes>, processed: seq<bytes>)
    requires m.Reading? && ProcessedFine(memory, m, popped, packets, processed)
    ensures var r := ReadNext(memory[m.slot], m, processed);
            ProcessedFine(memory, r.0, popped, packets, r.1)
  {
    var packet, all := memory[m.slot], AllMessages(packets[..popped]);
    FramesFrom(packet, m.cursor);
    match FrameAt(packet, m.cursor)
    case None => assert processed + [] == processed;
    case Some(n) =>
      var msg, rest := packet[m.cursor + 2..m.cursor + n], Frames(packet[m.cursor + n..]);
      MoveOne(processed, msg, rest);
      assert (processed + [msg]) + rest == all;
  }

  lemma MoveOne(done: seq<bytes>, x: bytes, rest: seq<bytes>)
    ensures done + ([x] + rest) == (done + [x]) + rest
  {
  }

  lemma FramesFrom(packet: bytes, cursor: nat)
    requires cursor <= |packet|
    ensures FrameAt(packet, cursor).None? ==> Frames(packet[cursor..]) == []
    ensures FrameAt(packet, cursor).Some? ==>
              var n := FrameAt(packet, cursor).value;
              Frames(packet[cursor..]) == [packet[cursor + 2..cursor + n]] + Frames(packet[cursor + n..])
  {
    var ahead := packet[cursor..];
    if FrameAt(packet, cursor).Some? {
      var n := FrameAt(packet, cursor).value;
      assert ahead[n..] == packet[cursor + n..] && ahead[2..n] == packet[cursor + 2..cursor + n];
    }
  }

  lemma ReadKeeps(s: Pipe)
    requires Inv(s) && s.matcher.Reading?
    ensures Inv(ReadTurn(s))
  {
    ReadFine(s.memory, s.matcher, |s.ring.popped|, s.packets, s.processed);
  }

  lemma ReturnKeeps(s: Pipe, spurious: bool)
    requires Inv(s) && s.matcher.Returning?
    ensures Inv(ReturnTurn(s, spurious))
  {
    var stage := s.pool.stages[MATCHER];
    if stage.ReleaseLoaded? {
      PoolQuiet(s, MATCHER, Pools.WriteLink);
    } else if stage.ReleaseLinked? {
      if !spurious && s.pool.freeHead == stage.head {
        PoolKeeps(s.pool, MATCHER, Pools.CasRelease(spurious));
        PartitionReturn(s.pool.owner, s.net, s.matcher, Unread(s.ring.pushed, |s.ring.popped|), stage.idx);
      } else {
        PoolQuiet(s, MATCHER, Pools.CasRelease(spurious));
      }
    } else {
      PoolQuiet(s, MATCHER, Pools.LoadToRelease(s.matcher.slot));
    }
  }

  lemma NetKeeps(s: Pipe, c: Choice)
    requires Inv(s)
    ensures Inv(NetTurnOf(s, c))
  {
    match s.net
    case Acquiring => AcquireKeeps(s, c.spurious);
    case Receiving(_) => ReceiveKeeps(s, c.recv);
    case ReceivingScratch =>
    case Pushing(_) => PushKeeps(s);
    case PushingEnd => PushEndKeeps(s);
    case Releasing(_, _) => ReleaseKeeps(s, c.spurious);
    case NetDone =>
  }

  lemma MatcherKeeps(s: Pipe, c: Choice)
    requires Inv(s)
    ensures Inv(MatcherTurnOf(s, c))
  {
    match s.matcher
    case Popping => PopKeeps(s, c.checkStop);
    case Reading(_, _) => ReadKeeps(s);
    case Returning(_) => ReturnKeeps(s, c.spurious);
    case MatcherDone =>
  }

  /** Every turn of either thread keeps the invariant. */
  lemma TurnKeeps(s: Pipe, turn: Turn)
    requires Inv(s)
    ensures Inv(TakeTurn(s, turn))
  {
    if turn.NetTurn? { NetKeeps(s, turn.choice); } else { MatcherKeeps(s, turn.choice); }
  }

  // ---- Runs ----

  /** A slot number for every buffer, and a ring with at least one cell. */
  predicate CanStart(memory: seq<bytes>, buffer: seq<uint32>) {
    0 < |memory| <= INVALID && buffer != []
  }

  /** Empty ring, full pool, both threads about to start. */
  function Start(memory: seq<bytes>, buffer: seq<uint32>): (s: Pipe)
    requires CanStart(memory, buffer)
    ensures Inv(s)
  {
    Pools.FreshSound(|memory|, 3, NET);
    Pipe(Pools.Fresh(|memory|, 3), Rings.Empty(buffer), memory, START, Acquiring, Popping, false, [], [], [])
  }

  function Run(s: Pipe, turns: seq<Turn>): (s': Pipe)
    requires Inv(s)
    ensures Grows(s, s')
    ensures Inv(s')
    ensures SameSizes(s, s')
    decreases |turns|
  {
    if turns == [] then s else TurnKeeps(s, turns[0]); Run(TakeTurn(s, turns[0]), turns[1..])
  }

  /** The messages of all packets popped; all processed, unless a packet is being read. */
  function PoppedMessages(s: Pipe): (msgs: seq<bytes>)
    requires Inv(s)
    ensures s.processed <= msgs && (!s.matcher.Reading? ==> s.processed == msgs)
  {
    AllMessages(s.packets[..|s.ring.popped|])
  }
}
