/**
  The replay sender: cuts a file of length-prefixed messages into MoldUDP64 packets, numbers
  them, and closes the session.
 */
module Replayer {
  import opened Words
  import opened MoldUdp64

  const PACKET_BYTES: nat := 2048
  const BATCH_SLOTS: nat := 256

  const SESSION: bytes := [0x4F, 0x52, 0x44, 0x42, 0x4B, 0x53, 0x45, 0x53, 0x31, 0]

  // ---- Specification: greedy batches, consecutive numbers ----

  predicate Fits(msg: bytes) {
    HEADER_BYTES + 2 + |msg| <= PACKET_BYTES
  }

  /** How many messages go into a packet that already holds `used` bytes. */
  function TakeCount(msgs: seq<bytes>, room: nat, used: nat): (n: nat)
    ensures n <= |msgs| && n <= room
  {
    if msgs == [] || room == 0 || used + 2 + |msgs[0]| > PACKET_BYTES then 0
    else 1 + TakeCount(msgs[1..], room - 1, used + 2 + |msgs[0]|)
  }

  function Batches(msgs: seq<bytes>, maxPerPacket: nat): (bs: seq<seq<bytes>>) {
    var n := TakeCount(msgs, maxPerPacket, HEADER_BYTES);
    if n == 0 then [] else [msgs[..n]] + Batches(msgs[n..], maxPerPacket)
  }

  /** No batch outgrows the sender's arrays. */
  ghost predicate SlotsSuffice(msgs: seq<bytes>, maxPerPacket: nat) {
    forall k | 0 <= k < |Batches(msgs, maxPerPacket)| :: |Batches(msgs, maxPerPacket)[k]| <= BATCH_SLOTS
  }

  function Flatten<T>(batches: seq<seq<T>>): (all: seq<T>) {
    if batches == [] then [] else batches[0] + Flatten(batches[1..])
  }

  /** A packet of the session, before encoding. */
  datatype Datagram = Data(seqNo: nat, batch: seq<bytes>) | End(seqNo: nat)

  function Wire(d: Datagram): (packet: bytes) {
    match d
    case Data(seqNo, batch) => Encode(SESSION, seqNo, |batch|, batch)
    case End(seqNo) => Encode(SESSION, seqNo, END_OF_SESSION, [])
  }

  /** A packet byte by byte: session "ORDBKSES1" and a zero, the number, the count (0xFFFF for the end of the
      session), and then the frames of the batch. */
  lemma WireBytes(d: Datagram)
    requires d.seqNo < TWO_64 && (d.Data? ==> |d.batch| < TWO_16 && Sendable(d.batch))
    ensures var session := [0x4F, 0x52, 0x44, 0x42, 0x4B, 0x53, 0x45, 0x53, 0x31, 0];
            var p := Wire(d);
            && LaidOut(p, MoldHeader(session, d.seqNo, if d.Data? then |d.batch| else 0xFFFF))
            && p[20..] == if d.Data? then Body(d.batch) else []
  {
    match d
    case Data(seqNo, batch) => EncodeBytes(SESSION, seqNo, |batch|, batch);
    case End(seqNo) => EncodeBytes(SESSION, seqNo, END_OF_SESSION, []);
  }

  function Numbered(batches: seq<seq<bytes>>, seqNo: nat): (ds: seq<Datagram>)
    ensures |ds| == |batches|
    decreases |batches|
  {
    if batches == [] then [] else [Data(seqNo, batches[0])] + Numbered(batches[1..], seqNo + |batches[0]|)
  }

  /** Everything a replay sends when the next message has number seqNo. */
  function Plan(msgs: seq<bytes>, maxPerPacket: nat, seqNo: nat): (ds: seq<Datagram>) {
    var batches := Batches(msgs, maxPerPacket);
    Numbered(batches, seqNo) + [End(seqNo + |Flatten(batches)|)]
  }

  /** `sent` are the first packets of the plan, and `todo` the others. */
  ghost predicate SentSoFar(sent: seq<bytes>, plan: seq<Datagram>, todo: seq<Datagram>) {
    && |sent| <= |plan| && plan[|sent|..] == todo
    && (forall i | 0 <= i < |sent| :: sent[i] == Wire(plan[i]))
  }

  lemma SentOneMore(sent: seq<bytes>, plan: seq<Datagram>, todo: seq<Datagram>, d: Datagram, rest: seq<Datagram>,
                    bs: bytes)
    requires SentSoFar(sent, plan, todo) && todo == [d] + rest && bs == Wire(d)
    ensures SentSoFar(sent + [bs], plan, rest)
  {
    assert plan[|sent|] == todo[0] && plan[|sent| + 1..] == todo[1..];
  }

  /** The bytes sent are the planned packets, in order. */
  ghost predicate Carries(sent: seq<bytes>, ds: seq<Datagram>) {
    |sent| == |ds| && forall i | 0 <= i < |ds| :: sent[i] == Wire(ds[i])
  }

  // ---- The loops ----

  /** Collects messages from `pos` on while the packet and the batch have room. */
  method NextBatch(data: bytes, start: nat, maxPerPacket: uint16, ghost rest: seq<bytes>)
    returns (batch: seq<bytes>, pos: nat)
    requires start <= |data| && data[start..] == Body(rest) && Sendable(rest)
    ensures batch == rest[..TakeCount(rest, maxPerPacket, HEADER_BYTES)]
    ensures pos <= |data| && data[pos..] == Body(rest[|batch|..])
    ensures batch != [] ==> pos > start
  {
    batch, pos := [], start;
    var packetUsed: nat := HEADER_BYTES;
    while pos < |data| && |batch| < maxPerPacket
      invariant |batch| <= |rest| && |batch| <= maxPerPacket && batch == rest[..|batch|]
      invariant start <= pos <= |data| && data[pos..] == Body(rest[|batch|..]) && (batch != [] ==> pos > start)
      invariant |batch| + TakeCount(rest[|batch|..], maxPerPacket - |batch|, packetUsed)
             == TakeCount(rest, maxPerPacket, HEADER_BYTES)
      decreases |data| - pos
    {
      ghost var left := rest[|batch|..];
      FrontOf(data, pos, left);
      var mlen := Swap16(Load16(data[pos..pos + 2]));
      if packetUsed + 2 + mlen > PACKET_BYTES {
        return;
      }
      assert rest[|batch| + 1..] == left[1..];
      batch := batch + [data[pos + 2..pos + 2 + mlen]];
      packetUsed := packetUsed + 2 + mlen;
      pos := pos + 2 + mlen;
    }
    if pos == |data| {
      assert rest[|batch|..] == [];
    }
  }

  /** The frame at a cursor into a well-formed file. */
  lemma FrontOf(data: bytes, pos: nat, left: seq<bytes>)
    requires pos < |data| && data[pos..] == Body(left) && Sendable(left)
    ensures left != [] && pos + 2 <= |data|
    ensures var n := Swap16(Load16(data[pos..pos + 2]));
            && pos + 2 + n <= |data| && left[0] == data[pos + 2..pos + 2 + n]
            && data[pos + 2 + n..] == Body(left[1..])
  {
    var b := data[pos..];
    assert b == Frame(left[0]) + Body(left[1..]);
    FrontFrame(left[0], Body(left[1..]));
    LoadSwap16(data[pos..pos + 2]);
    assert b[..2] == data[pos..pos + 2];
    var n := |left[0]|;
    assert b[2..2 + n] == data[pos + 2..pos + 2 + n] && b[2 + n..] == data[pos + 2 + n..];
  }

  /** A batch never overfills its packet. */
  lemma {:induction false} TakeFits(msgs: seq<bytes>, room: nat, used: nat)
    requires used <= 2048
    ensures used + |Body(msgs[..TakeCount(msgs, room, used)])| <= 2048
  {
    var n := TakeCount(msgs, room, used);
    if n > 0 {
      TakeFits(msgs[1..], room - 1, used + 2 + |msgs[0]|);
      assert msgs[..n][1..] == msgs[1..][..n - 1];
    }
  }

  /** A batch stops only for want of messages, of batch slots or of room in the packet. */
  lemma {:induction false} TakeLongest(msgs: seq<bytes>, room: nat, used: nat)
    ensures var n := TakeCount(msgs, room, used);
            n == |msgs| || n == room || used + |Body(msgs[..n + 1])| > 2048
  {
    var n := TakeCount(msgs, room, used);
    if n > 0 {
      TakeLongest(msgs[1..], room - 1, used + 2 + |msgs[0]|);
      assert n < |msgs| ==> msgs[..n + 1][1..] == msgs[1..][..n];
    } else if msgs != [] {
      assert Body(msgs[..1]) == Frame(msgs[0]) + Body(msgs[..1][1..]);
    }
  }

  /** Builds one packet in the send buffer. */
  method BuildBatch(packet: array<byte>, seqNo: uint64, batch: seq<bytes>) returns (bs: bytes)
    requires packet.Length == PACKET_BYTES && |batch| <= BATCH_SLOTS && Sendable(batch)
    requires HEADER_BYTES + |Body(batch)| <= PACKET_BYTES
    modifies packet
    ensures bs == Wire(Data(seqNo, batch))
  {
    var n := BuildMoldPacket(packet, SESSION, seqNo, batch);
    bs := packet[..n];
  }

  /** Builds an empty packet and patches its count. */
  method BuildEnd(packet: array<byte>, seqNo: uint64) returns (bs: bytes)
    requires packet.Length == PACKET_BYTES
    modifies packet
    ensures bs == Wire(End(seqNo))
  {
    var n := BuildMoldPacket(packet, SESSION, seqNo, []);
    StoreSwap16(END_OF_SESSION);
    CopyTo(packet, 18, Store16(Swap16(END_OF_SESSION)));
    bs := packet[..n];
  }

  lemma NumberedCons(b: seq<bytes>, bs: seq<seq<bytes>>, seqNo: nat)
    ensures Numbered([b] + bs, seqNo) == [Data(seqNo, b)] + Numbered(bs, seqNo + |b|)
    ensures |Flatten([b] + bs)| == |b| + |Flatten(bs)|
  {
    assert ([b] + bs)[1..] == bs;
  }

  lemma PlanEnd(rest: seq<bytes>, maxPerPacket: nat, seqNo: nat)
    requires TakeCount(rest, maxPerPacket, HEADER_BYTES) == 0
    ensures Plan(rest, maxPerPacket, seqNo) == [End(seqNo)]
  {
    assert Batches(rest, maxPerPacket) == [];
  }

  lemma PlanMore(rest: seq<bytes>, maxPerPacket: nat, seqNo: nat, n: nat)
    requires n == TakeCount(rest, maxPerPacket, HEADER_BYTES) > 0
    ensures Plan(rest, maxPerPacket, seqNo) == [Data(seqNo, rest[..n])] + Plan(rest[n..], maxPerPacket, seqNo + n)
  {
    var later := Batches(rest[n..], maxPerPacket);
    NumberedCons(rest[..n], later, seqNo);
  }

  /** Builds the next packet from the file; none when no message is left that fits. */
  method BuildNext(packet: array<byte>, data: bytes, start: nat, maxPerPacket: uint16, seqNo: uint64,
                   ghost rest: seq<bytes>)
    returns (count: nat, pos: nat, bs: bytes)
    requires packet.Length == PACKET_BYTES && TakeCount(rest, maxPerPacket, HEADER_BYTES) <= BATCH_SLOTS
    requires start <= |data| && data[start..] == Body(rest) && Sendable(rest)
    modifies packet
    ensures count == TakeCount(rest, maxPerPacket, HEADER_BYTES)
    ensures pos <= |data| && data[pos..] == Body(rest[count..])
    ensures count > 0 ==> pos > start && bs == Wire(Data(seqNo, rest[..count]))
  {
    TakeFits(rest, maxPerPacket, HEADER_BYTES);
    var batch;
    batch, pos := NextBatch(data, start, maxPerPacket, rest);
    count, bs := |batch|, [];
    if count > 0 {
      bs := BuildBatch(packet, seqNo, batch);
    }
  }

  /** The cursor is at the first unsent message, numbered seqNo, and everything before it is sent. */
  ghost predicate Progress(data: bytes, pos: nat, maxPerPacket: nat, seqNo: nat, rest: seq<bytes>,
                           sent: seq<bytes>, plan: seq<Datagram>)
  {
    && pos <= |data| && data[pos..] == Body(rest) && Sendable(rest) && SlotsSuffice(rest, maxPerPacket)
    && SentSoFar(sent, plan, Plan(rest, maxPerPacket, seqNo))
  }

  lemma ProgressMore(data: bytes, pos: nat, maxPerPacket: nat, seqNo: nat, rest: seq<bytes>,
                     sent: seq<bytes>, plan: seq<Datagram>, count: nat, next: nat, bs: bytes)
    requires Progress(data, pos, maxPerPacket, seqNo, rest, sent, plan)
    requires count == TakeCount(rest, maxPerPacket, HEADER_BYTES) > 0
    requires next <= |data| && data[next..] == Body(rest[count..]) && bs == Wire(Data(seqNo, rest[..count]))
    ensures Progress(data, next, maxPerPacket, seqNo + count, rest[count..], sent + [bs], plan)
  {
    PlanMore(rest, maxPerPacket, seqNo, count);
    SlotsLater(rest, maxPerPacket);
    SentOneMore(sent, plan, Plan(rest, maxPerPacket, seqNo), Data(seqNo, rest[..count]),
                Plan(rest[count..], maxPerPacket, seqNo + count), bs);
  }

  lemma SlotsLater(msgs: seq<bytes>, maxPerPacket: nat)
    requires SlotsSuffice(msgs, maxPerPacket)
    ensures var n := TakeCount(msgs, maxPerPacket, HEADER_BYTES);
            n <= BATCH_SLOTS && (n > 0 ==> SlotsSuffice(msgs[n..], maxPerPacket))
  {
    var n, batches := TakeCount(msgs, maxPerPacket, HEADER_BYTES), Batches(msgs, maxPerPacket);
    if n > 0 {
      var later := Batches(msgs[n..], maxPerPacket);
      assert batches[0] == msgs[..n];
      forall k | 0 <= k < |later| ensures |later[k]| <= BATCH_SLOTS {
        assert batches[k + 1] == later[k];
      }
    }
  }

  lemma {:induction false} TakeBound(msgs: seq<bytes>, room: nat, used: nat)
    requires used <= PACKET_BYTES && forall i | 0 <= i < |msgs| :: |msgs[i]| >= 6
    ensures used + 8 * TakeCount(msgs, room, used) <= PACKET_BYTES
  {
    if TakeCount(msgs, room, used) > 0 {
      TakeBound(msgs[1..], room - 1, used + 2 + |msgs[0]|);
    }
  }

  /** They do not for a limit of at most 256, nor for any limit if no message is shorter than six bytes. */
  lemma {:induction false} SlotsEnough(msgs: seq<bytes>, maxPerPacket: nat)
    requires maxPerPacket <= BATCH_SLOTS || forall i | 0 <= i < |msgs| :: |msgs[i]| >= 6
    ensures SlotsSuffice(msgs, maxPerPacket)
  {
    var n := TakeCount(msgs, maxPerPacket, HEADER_BYTES);
    if n > 0 {
      SlotsEnough(msgs[n..], maxPerPacket);
      if maxPerPacket > BATCH_SLOTS {
        TakeBound(msgs, maxPerPacket, HEADER_BYTES);
      }
    }
  }

  /** Sends the whole file, then the end-of-session marker. */
  method Replay(data: bytes, maxPerPacket: uint16, ghost msgs: seq<bytes>) returns (sent: seq<bytes>)
    requires data == Body(msgs) && Sendable(msgs) && |data| < TWO_64 && SlotsSuffice(msgs, maxPerPacket)
    ensures Carries(sent, Plan(msgs, maxPerPacket, 1))
  {
    var packet := new byte[PACKET_BYTES];
    var seqNo: nat, pos: nat := 1, 0;
    sent := [];
    BodyLong(msgs);
    ghost var rest, plan := msgs, Plan(msgs, maxPerPacket, 1);
    while pos < |data|
      invariant seqNo + |rest| == 1 + |msgs| && Progress(data, pos, maxPerPacket, seqNo, rest, sent, plan)
      decreases |data| - pos
    {
      SlotsLater(rest, maxPerPacket);
      var count, next, bs := BuildNext(packet, data, pos, maxPerPacket, seqNo, rest);
      if count == 0 {
        break;
      }
      ProgressMore(data, pos, maxPerPacket, seqNo, rest, sent, plan, count, next, bs);
      sent, pos := sent + [bs], next;
      seqNo, rest := seqNo + count, rest[count..];
    }
    assert pos == |data| ==> rest == [];
    PlanEnd(rest, maxPerPacket, seqNo);
    var bs := BuildEnd(packet, seqNo);
    SentOneMore(sent, plan, [End(seqNo)], End(seqNo), [], bs);
    sent := sent + [bs];
  }

  lemma {:induction false} BodyLong(msgs: seq<bytes>)
    ensures |Body(msgs)| >= 2 * |msgs|
  {
    if msgs != [] {
      BodyLong(msgs[1..]);
    }
  }

  // ---- What a session consists of ----

  /** Messages before the first one that no packet can hold. */
  function FitCount(msgs: seq<bytes>): (n: nat)
    ensures n <= |msgs|
  {
    if msgs == [] || !Fits(msgs[0]) then 0 else 1 + FitCount(msgs[1..])
  }

  lemma {:induction false} TakeWithin(msgs: seq<bytes>, room: nat, used: nat)
    requires used >= HEADER_BYTES
    ensures var n := TakeCount(msgs, room, used);
            n <= FitCount(msgs) && FitCount(msgs) == n + FitCount(msgs[n..])
  {
    var n := TakeCount(msgs, room, used);
    if n > 0 {
      TakeWithin(msgs[1..], room - 1, used + 2 + |msgs[0]|);
      assert msgs[1..][n - 1..] == msgs[n..];
    }
  }

  /** The batches are the file, in order, up to the first message too long for a packet. */
  lemma {:induction false} BatchesCover(msgs: seq<bytes>, maxPerPacket: nat)
    requires maxPerPacket > 0
    ensures Flatten(Batches(msgs, maxPerPacket)) == msgs[..FitCount(msgs)]
  {
    var n := TakeCount(msgs, maxPerPacket, HEADER_BYTES);
    TakeWithin(msgs, maxPerPacket, HEADER_BYTES);
    if n > 0 {
      BatchesCover(msgs[n..], maxPerPacket);
      var rest := Batches(msgs[n..], maxPerPacket);
      assert ([msgs[..n]] + rest)[1..] == rest;
      assert msgs[..n] + msgs[n..][..FitCount(msgs[n..])] == msgs[..FitCount(msgs)];
    }
  }

  /** One packet's worth: neither empty nor too many, too long or too big. */
  ghost predicate GoodBatch(batch: seq<bytes>, maxPerPacket: nat) {
    && 0 < |batch| <= maxPerPacket && Sendable(batch) && HEADER_BYTES + |Body(batch)| <= PACKET_BYTES
  }

  lemma {:induction false} BatchesGood(msgs: seq<bytes>, maxPerPacket: nat)
    requires Sendable(msgs)
    ensures forall k | 0 <= k < |Batches(msgs, maxPerPacket)| :: GoodBatch(Batches(msgs, maxPerPacket)[k], maxPerPacket)
  {
    var n := TakeCount(msgs, maxPerPacket, HEADER_BYTES);
    if n > 0 {
      BatchesGood(msgs[n..], maxPerPacket);
      TakeFits(msgs, maxPerPacket, HEADER_BYTES);
      assert GoodBatch(msgs[..n], maxPerPacket);
    }
  }

  lemma ShiftSlice<T>(first: seq<T>, rest: seq<T>, from: nat, n: nat)
    requires from + n <= |rest|
    ensures (first + rest)[|first| + from..|first| + from + n] == rest[from..from + n]
  {
  }

  /** Packet k starts one past the messages before it. */
  lemma {:induction false} NumberedAt(batches: seq<seq<bytes>>, seqNo: nat, k: nat)
    requires k < |batches|
    ensures |Flatten(batches[..k])| + |batches[k]| <= |Flatten(batches)|
    ensures Numbered(batches, seqNo)[k] == Data(seqNo + |Flatten(batches[..k])|, batches[k])
    ensures batches[k] == Flatten(batches)[|Flatten(batches[..k])|..|Flatten(batches[..k])| + |batches[k]|]
    decreases |batches|
  {
    if k > 0 {
      NumberedAt(batches[1..], seqNo + |batches[0]|, k - 1);
      assert batches[..k][1..] == batches[1..][..k - 1] && batches[..k][0] == batches[0];
      ShiftSlice(batches[0], Flatten(batches[1..]), |Flatten(batches[1..][..k - 1])|, |batches[k]|);
    }
  }

  /** Every packet carries the messages its number says: the slice of `all` starting there. */
  ghost predicate Slice(d: Datagram, all: seq<bytes>) {
    d.Data? ==>
      && 1 <= d.seqNo && GoodBatch(d.batch, BATCH_SLOTS) && d.seqNo - 1 + |d.batch| <= |all|
      && d.batch == all[d.seqNo - 1..d.seqNo - 1 + |d.batch|]
  }

  ghost predicate SliceAt(plan: seq<Datagram>, all: seq<bytes>, k: nat)
    requires k < |plan|
  {
    Slice(plan[k], all) && plan[k].seqNo <= |all| + 1
  }

  ghost predicate Session(plan: seq<Datagram>, all: seq<bytes>) {
    && |all| + 1 < TWO_64
    && (forall k {:trigger SliceAt(plan, all, k)} | 0 <= k < |plan| :: SliceAt(plan, all, k))
  }

  /** A replay is such a session over the messages of the file that fit. */
  lemma PlanIsSession(msgs: seq<bytes>, maxPerPacket: nat)
    requires Sendable(msgs) && 0 < maxPerPacket && SlotsSuffice(msgs, maxPerPacket) && |msgs| + 1 < TWO_64
    ensures Session(Plan(msgs, maxPerPacket, 1), msgs[..FitCount(msgs)])
  {
    var batches, plan := Batches(msgs, maxPerPacket), Plan(msgs, maxPerPacket, 1);
    BatchesCover(msgs, maxPerPacket);
    BatchesGood(msgs, maxPerPacket);
    forall k {:trigger SliceAt(plan, Flatten(batches), k)} | 0 <= k < |plan|
      ensures SliceAt(plan, Flatten(batches), k)
    {
      if k < |batches| {
        assert GoodBatch(batches[k], maxPerPacket);
        NumberedSlice(batches, k);
      }
    }
  }

  lemma NumberedSlice(batches: seq<seq<bytes>>, k: nat)
    requires k < |batches| && GoodBatch(batches[k], BATCH_SLOTS)
    ensures var d := Numbered(batches, 1)[k];
            Slice(d, Flatten(batches)) && d.seqNo <= |Flatten(batches)| + 1
  {
    NumberedAt(batches, 1, k);
  }

  /** What a receiver reads back from a packet of a session. */
  lemma WireRoundTrip(d: Datagram, all: seq<bytes>)
    requires Slice(d, all) && d.seqNo < TWO_64
    ensures var packet := Wire(d);
            && HEADER_BYTES <= |packet| <= PACKET_BYTES
            && HeaderOf(packet) == MoldHeader(SESSION, d.seqNo, if d.Data? then |d.batch| else END_OF_SESSION)
            && Frames(packet[HEADER_BYTES..]) == if d.Data? then d.batch else []
  {
    match d
    case Data(seqNo, batch) => PacketRoundTrip(SESSION, seqNo, |batch|, batch);
    case End(seqNo) => PacketRoundTrip(SESSION, seqNo, END_OF_SESSION, []);
  }
}
