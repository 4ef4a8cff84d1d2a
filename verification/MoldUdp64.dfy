/**
  MoldUDP64 framing on a little-endian host: header fields are copied into machine words and
  byte-swapped. The wire format itself is stated independently, as big-endian numbers.
 */
module MoldUdp64 {
  import opened Words

  const HEADER_BYTES: nat := 20
  const END_OF_SESSION: uint16 := 0xFFFF
  const HEARTBEAT: uint16 := 0

  type bytes = seq<byte>

  datatype MoldHeader = MoldHeader(session: bytes, sequenceNumber: uint64, messageCount: uint16)

  // ---- The wire format: big-endian numbers ----

  function Pow256(k: nat): (p: nat)
    ensures p > 0
  {
    if k == 0 then 1 else 256 * Pow256(k - 1)
  }

  /** The k low-order base-256 digits of n, most significant first. */
  function BigEndian(n: nat, k: nat): (bs: bytes)
    ensures |bs| == k
  {
    if k == 0 then [] else BigEndian(n / 256, k - 1) + [n % 256]
  }

  function FromBigEndian(bs: bytes): (n: nat)
    ensures n < Pow256(|bs|)
  {
    if bs == [] then 0 else 256 * FromBigEndian(bs[..|bs| - 1]) + bs[|bs| - 1]
  }

  lemma {:induction false} BigEndianRoundTrip(n: nat, k: nat)
    requires n < Pow256(k)
    ensures FromBigEndian(BigEndian(n, k)) == n
  {
    if k > 0 {
      BigEndianRoundTrip(n / 256, k - 1);
      assert BigEndian(n, k)[..k - 1] == BigEndian(n / 256, k - 1);
    }
  }

  lemma {:induction false} BigEndianInverse(bs: bytes)
    ensures BigEndian(FromBigEndian(bs), |bs|) == bs
  {
    if bs != [] {
      BigEndianInverse(bs[..|bs| - 1]);
      assert bs == bs[..|bs| - 1] + [bs[|bs| - 1]];
    }
  }

  // ---- What the host does: little-endian words, swapped ----

  function Load16(bs: bytes): (w: uint16)
    requires |bs| == 2
  {
    var b0: int, b1: int := bs[0], bs[1];
    b0 + 0x100 * b1
  }

  function Load32(bs: bytes): (w: uint32)
    requires |bs| == 4
  {
    var b0: int, b1: int, b2: int, b3: int := bs[0], bs[1], bs[2], bs[3];
    b0 + 0x100 * (b1 + 0x100 * (b2 + 0x100 * b3))
  }

  function Load64(bs: bytes): (w: uint64)
    requires |bs| == 8
  {
    Load32(bs[..4]) + TWO_32 * Load32(bs[4..])
  }

  function Store16(w: uint16): (bs: bytes)
    ensures |bs| == 2
  {
    [w % 0x100, w / 0x100]
  }

  function Store32(w: uint32): (bs: bytes)
    ensures |bs| == 4
  {
    [w % 0x100, w / 0x100 % 0x100, w / 0x1_0000 % 0x100, w / 0x100_0000]
  }

  function Store64(w: uint64): (bs: bytes)
    ensures |bs| == 8
  {
    Store32(w % TWO_32) + Store32(w / TWO_32)
  }

  /** ntohs, htons. */
  function Swap16(w: uint16): (r: uint16) {
    w % 0x100 * 0x100 + w / 0x100
  }

  /** ntohl, htonl. */
  function Swap32(w: uint32): (r: uint32) {
    w % 0x100 * 0x100_0000 + w / 0x100 % 0x100 * 0x1_0000 + w / 0x1_0000 % 0x100 * 0x100 + w / 0x100_0000
  }

  lemma LoadSwap16(bs: bytes)
    requires |bs| == 2
    ensures Swap16(Load16(bs)) == FromBigEndian(bs)
  {
    BigEndian16(bs);
  }

  lemma BigEndian16(bs: bytes)
    requires |bs| == 2
    ensures FromBigEndian(bs) == 0x100 * (bs[0] as int) + bs[1]
  {
    assert bs[..1][..0] == [] && bs[..1][0] == bs[0];
  }

  lemma BigEndian32(bs: bytes)
    requires |bs| == 4
    ensures FromBigEndian(bs) ==
              0x100 * (0x100 * (0x100 * (bs[0] as int) + bs[1]) + bs[2]) + bs[3]
  {
    BigEndian16(bs[..2]);
    assert bs[..3][..2] == bs[..2];
  }

  /** A number of eight bytes is its high word above its low word. */
  lemma BigEndian64(bs: bytes)
    requires |bs| == 8
    ensures FromBigEndian(bs) == TWO_32 * FromBigEndian(bs[..4]) + FromBigEndian(bs[4..])
  {
    BigEndian32(bs[4..]);
    assert bs[..7][..6] == bs[..6] && bs[..6][..5] == bs[..5] && bs[..5][..4] == bs[..4];
    assert FromBigEndian(bs) == 256 * FromBigEndian(bs[..7]) + bs[7];
    assert FromBigEndian(bs[..7]) == 256 * FromBigEndian(bs[..6]) + bs[6];
    assert FromBigEndian(bs[..6]) == 256 * FromBigEndian(bs[..5]) + bs[5];
    assert FromBigEndian(bs[..5]) == 256 * FromBigEndian(bs[..4]) + bs[4];
  }

  /** Splitting off the lowest digit. */
  lemma LowDigit(b: int, rest: int)
    requires 0 <= b < 256
    ensures (b + 0x100 * rest) % 0x100 == b && (b + 0x100 * rest) / 0x100 == rest
  {
  }

  /** The four digits of a 32-bit word. */
  lemma Digits32(b0: byte, b1: byte, b2: byte, b3: byte)
    ensures var w := b0 as int + 0x100 * (b1 as int + 0x100 * (b2 as int + 0x100 * (b3 as int)));
            && w % 0x100 == b0 && w / 0x100 % 0x100 == b1 && w / 0x1_0000 % 0x100 == b2 && w / 0x100_0000 == b3
  {
    var w2 := b2 as int + 0x100 * (b3 as int);
    var w1 := b1 as int + 0x100 * w2;
    var w := b0 as int + 0x100 * w1;
    LowDigit(b0, w1);
    LowDigit(b1, w2);
    LowDigit(b2, b3);
    assert w / 0x1_0000 == w / 0x100 / 0x100 && w / 0x100_0000 == w / 0x100 / 0x100 / 0x100;
  }

  lemma LoadSwap32(bs: bytes)
    requires |bs| == 4
    ensures Swap32(Load32(bs)) == FromBigEndian(bs)
  {
    BigEndian32(bs);
    Digits32(bs[0], bs[1], bs[2], bs[3]);
  }

  lemma LoadSwap64(bs: bytes)
    requires |bs| == 8
    ensures Swap32(Load64(bs) % TWO_32) * TWO_32 + Swap32(Load64(bs) / TWO_32) == FromBigEndian(bs)
  {
    var lo, hi := Load32(bs[..4]), Load32(bs[4..]);
    HalfWords(lo, hi);
    assert Load64(bs) % TWO_32 == lo && Load64(bs) / TWO_32 == hi;
    LoadSwap32(bs[..4]);
    LoadSwap32(bs[4..]);
    BigEndian64(bs);
  }

  lemma HalfWords(lo: uint32, hi: uint32)
    ensures (lo + TWO_32 * hi) % TWO_32 == lo && (lo + TWO_32 * hi) / TWO_32 == hi
  {
  }

  /** Swapping reverses the bytes of a word. */
  lemma SwapReverses(b0: byte, b1: byte, b2: byte, b3: byte)
    ensures Swap32(Load32([b0, b1, b2, b3])) == Load32([b3, b2, b1, b0])
  {
    Digits32(b0, b1, b2, b3);
  }

  lemma StoreSwap32(n: uint32)
    ensures Store32(Swap32(n)) == BigEndian(n, 4)
  {
    PowValues();
    var bs := BigEndian(n, 4);
    BigEndianRoundTrip(n, 4);
    LoadSwap32(bs);
    assert bs == [bs[0], bs[1], bs[2], bs[3]];
    SwapReverses(bs[0], bs[1], bs[2], bs[3]);
    SwapReverses(bs[3], bs[2], bs[1], bs[0]);
    assert Swap32(n) == Load32(bs);
    StoreLoad32(bs);
  }

  lemma StoreLoad32(bs: bytes)
    requires |bs| == 4
    ensures Store32(Load32(bs)) == bs
  {
    Digits32(bs[0], bs[1], bs[2], bs[3]);
  }

  lemma StoreSwap16(n: uint16)
    ensures Store16(Swap16(n)) == BigEndian(n, 2)
  {
    assert BigEndian(n / 256, 1) == [n / 256];
  }

  lemma StoreSwap64(n: uint64)
    ensures Store64(Swap32(n % TWO_32) * TWO_32 + Swap32(n / TWO_32)) == BigEndian(n, 8)
  {
    var hi, lo := Swap32(n / TWO_32), Swap32(n % TWO_32);
    HalfWords(hi, lo);
    assert Store64(lo * TWO_32 + hi) == Store32(hi) + Store32(lo);
    StoreSwap32(n / TWO_32);
    StoreSwap32(n % TWO_32);
    BigEndianHalves(n);
  }

  lemma BigEndianHalves(n: uint64)
    ensures BigEndian(n, 8) == BigEndian(n / TWO_32, 4) + BigEndian(n % TWO_32, 4)
  {
    var hi, lo := BigEndian(n / TWO_32, 4), BigEndian(n % TWO_32, 4);
    PowValues();
    BigEndianRoundTrip(n / TWO_32, 4);
    BigEndianRoundTrip(n % TWO_32, 4);
    assert (hi + lo)[..4] == hi && (hi + lo)[4..] == lo;
    BigEndian64(hi + lo);
    assert FromBigEndian(hi + lo) == n;
    BigEndianInverse(hi + lo);
  }

  lemma PowValues()
    ensures Pow256(2) == TWO_16 && Pow256(4) == TWO_32 && Pow256(8) == TWO_64
  {
    assert Pow256(2) == 65536;
    assert Pow256(4) == 65536 * 65536;
    assert Pow256(6) == 65536 * 65536 * 65536;
  }

  /** The header a packet carries, by the wire format. */
  function HeaderOf(data: bytes): (hdr: MoldHeader)
    requires |data| >= HEADER_BYTES
  {
    PowValues();
    MoldHeader(data[..10], FromBigEndian(data[10..18]), FromBigEndian(data[18..20]))
  }

  /** The header byte by byte: ten bytes of session, eight of sequence number, two of message count, the high
      byte of each number first. */
  ghost predicate LaidOut(data: bytes, hdr: MoldHeader) {
    && |data| >= 20 && hdr.session == data[..10]
    && hdr.sequenceNumber as int ==
       0x1_0000_0000 * (0x100 * (0x100 * (0x100 * (data[10] as int) + data[11]) + data[12]) + data[13])
       + (0x100 * (0x100 * (0x100 * (data[14] as int) + data[15]) + data[16]) + data[17])
    && hdr.messageCount as int == 0x100 * (data[18] as int) + data[19]
  }

  lemma HeaderBytes(data: bytes)
    requires |data| >= 20
    ensures LaidOut(data, HeaderOf(data))
  {
    BigEndian64(data[10..18]);
    assert data[10..18][..4] == data[10..14] && data[10..18][4..] == data[14..18];
    BigEndian32(data[10..14]);
    BigEndian32(data[14..18]);
    BigEndian16(data[18..20]);
  }

  /** Parses the 20-byte header by copying words and swapping them. */
  method ParseMoldHeader(data: bytes) returns (hdr: MoldHeader)
    requires |data| >= HEADER_BYTES
    ensures LaidOut(data, hdr) && hdr == HeaderOf(data)
  {
    var seqBe := Load64(data[10..18]);
    var hi := Swap32(seqBe % TWO_32);
    var lo := Swap32(seqBe / TWO_32);
    LoadSwap64(data[10..18]);
    LoadSwap16(data[18..20]);
    hdr := MoldHeader(data[..10], hi * TWO_32 + lo, Swap16(Load16(data[18..20])));
    HeaderBytes(data);
  }

  // ---- Messages in a packet body ----

  /** A message as it stands in a body: its length, then its bytes. */
  function Frame(msg: bytes): (bs: bytes)
    ensures |bs| == 2 + |msg|
  {
    BigEndian(|msg|, 2) + msg
  }

  function Body(msgs: seq<bytes>): (bs: bytes) {
    if msgs == [] then [] else Frame(msgs[0]) + Body(msgs[1..])
  }

  ghost predicate Sendable(msgs: seq<bytes>) {
    forall i | 0 <= i < |msgs| :: |msgs[i]| < TWO_16
  }

  /** Length of the message at the front of a body. */
  function FrontLength(body: bytes): (n: uint16)
    requires |body| >= 2
  {
    PowValues();
    FromBigEndian(body[..2])
  }

  /** The complete messages at the front of a body, up to the first truncated one. */
  function Frames(body: bytes): (msgs: seq<bytes>) {
    if |body| < 2 || |body| < 2 + FrontLength(body) then []
    else [body[2..2 + FrontLength(body)]] + Frames(body[2 + FrontLength(body)..])
  }

  /** A frame byte by byte: the length, high byte first, and then the message. */
  lemma FrameBytes(msg: bytes)
    requires |msg| < TWO_16
    ensures var bs := Frame(msg);
            |msg| == 0x100 * (bs[0] as int) + bs[1] && bs[2..] == msg
  {
    FrontFrame(msg, []);
    assert Frame(msg) + [] == Frame(msg);
    FrontBytes(Frame(msg));
  }

  lemma FrontBytes(body: bytes)
    requires |body| >= 2
    ensures FrontLength(body) as int == 0x100 * (body[0] as int) + body[1]
  {
    BigEndian16(body[..2]);
  }

  lemma FrontFrame(msg: bytes, rest: bytes)
    requires |msg| < TWO_16
    ensures var b := Frame(msg) + rest;
            FrontLength(b) == |msg| && b[2..2 + |msg|] == msg && b[2 + |msg|..] == rest
  {
    var b := Frame(msg) + rest;
    PowValues();
    assert b[..2] == BigEndian(|msg|, 2);
    BigEndianRoundTrip(|msg|, 2);
  }

  /** Truncating a body anywhere leaves exactly the messages that are still complete. */
  lemma {:induction false} FramesTruncated(msgs: seq<bytes>, k: nat)
    requires Sendable(msgs) && k <= |Body(msgs)|
    ensures Frames(Body(msgs)[..k]) <= msgs
    ensures var n := |Frames(Body(msgs)[..k])|;
            |Body(msgs[..n])| <= k && (n < |msgs| ==> k < |Body(msgs[..n + 1])|)
  {
    var b := Body(msgs)[..k];
    if msgs != [] {
      var rest := Body(msgs[1..]);
      FrontFrame(msgs[0], rest);
      if k >= 2 + |msgs[0]| {
        var j := k - 2 - |msgs[0]|;
        assert b == Frame(msgs[0]) + rest[..j];
        FrontFrame(msgs[0], rest[..j]);
        FramesTruncated(msgs[1..], j);
        var n := |Frames(rest[..j])|;
        assert msgs[..n + 1][1..] == msgs[1..][..n];
        assert n < |msgs| - 1 ==> msgs[..n + 2][1..] == msgs[1..][..n + 1];
      } else {
        assert |b| >= 2 ==> b[..2] == (Frame(msgs[0]) + rest)[..2];
        assert msgs[..1][1..] == [];
      }
    }
  }

  /** A whole body gives back its messages. */
  lemma FramesRoundTrip(msgs: seq<bytes>)
    requires Sendable(msgs)
    ensures Frames(Body(msgs)) == msgs
  {
    var k := |Body(msgs)|;
    FramesTruncated(msgs, k);
    assert Body(msgs)[..k] == Body(msgs);
    var n := |Frames(Body(msgs))|;
    if n < |msgs| {
      BodyPrefix(msgs, n + 1);
    }
  }

  lemma {:induction false} BodyPrefix(msgs: seq<bytes>, n: nat)
    requires n <= |msgs|
    ensures |Body(msgs[..n])| <= |Body(msgs)|
  {
    if n > 0 {
      BodyPrefix(msgs[1..], n - 1);
      assert msgs[..n][1..] == msgs[1..][..n - 1];
    }
  }

  /** The first complete message, framed, is the front of the body. */
  lemma FrontIsFrame(body: bytes)
    requires |body| >= 2 && |body| >= 2 + FrontLength(body)
    ensures Frame(body[2..2 + FrontLength(body)]) + body[2 + FrontLength(body)..] == body
  {
    var n := FrontLength(body);
    BigEndianInverse(body[..2]);
    assert Frame(body[2..2 + n]) == body[..2] + body[2..2 + n];
    assert body == body[..2] + body[2..2 + n] + body[2 + n..];
  }

  lemma PrefixAfter(front: bytes, p: bytes, rest: bytes)
    requires p <= rest
    ensures front + p <= front + rest
  {
  }

  /** What is read is always a front part of the body, framed. */
  lemma {:induction false} FramesArePrefix(body: bytes)
    ensures Sendable(Frames(body)) && Body(Frames(body)) <= body
    decreases |body|
  {
    if |body| >= 2 && |body| >= 2 + FrontLength(body) {
      var n := FrontLength(body);
      FramesArePrefix(body[2 + n..]);
      FrontIsFrame(body);
      PrefixAfter(Frame(body[2..2 + n]), Body(Frames(body[2 + n..])), body[2 + n..]);
    }
  }

  /** No list of complete messages read from the front of a body is longer. */
  lemma {:induction false} FramesLongest(body: bytes, msgs: seq<bytes>)
    requires Sendable(msgs) && Body(msgs) <= body
    ensures msgs <= Frames(body)
  {
    if msgs != [] {
      var rest := body[2 + |msgs[0]|..];
      assert body == Frame(msgs[0]) + rest;
      FrontFrame(msgs[0], rest);
      FramesLongest(rest, msgs[1..]);
    }
  }

  lemma {:induction false} BodySnoc(msgs: seq<bytes>, msg: bytes)
    ensures Body(msgs + [msg]) == Body(msgs) + Frame(msg)
  {
    if msgs != [] {
      BodySnoc(msgs[1..], msg);
      assert (msgs + [msg])[1..] == msgs[1..] + [msg];
    } else {
      assert ([] + [msg])[1..] == [];
    }
  }

  // ---- Reading ----

  /** Messages still to be handled: the one in hand and those ahead of it. */
  function Pending(msg: Option<bytes>, ahead: bytes): (msgs: seq<bytes>) {
    if msg.None? then [] else [msg.value] + Frames(ahead)
  }

  lemma FramesAt(body: bytes, c: nat)
    requires c + 2 <= |body|
    ensures var n := Swap16(Load16(body[c..c + 2]));
            Frames(body[c..]) == if c + 2 + n > |body| then [] else [body[c + 2..c + 2 + n]] + Frames(body[c + 2 + n..])
  {
    LoadSwap16(body[c..c + 2]);
    var rest := body[c..];
    assert rest[..2] == body[c..c + 2];
    var n := FrontLength(rest);
    if c + 2 + n <= |body| {
      assert rest[2..2 + n] == body[c + 2..c + 2 + n] && rest[2 + n..] == body[c + 2 + n..];
    }
  }

  class MoldMessageIterator {
    const body: bytes
    var cursor: nat

    ghost predicate Valid()
      reads this
    {
      cursor <= |body|
    }

    ghost function Ahead(): (rest: bytes)
      requires Valid()
      reads this
    {
      body[cursor..]
    }

    constructor (body: bytes)
      ensures Valid() && this.body == body && Ahead() == body
    {
      this.body := body;
      this.cursor := 0;
    }

    /** The next complete message; None once the rest holds no complete message. */
    method Next() returns (msg: Option<bytes>)
      requires Valid()
      modifies this
      ensures Valid()
      ensures Pending(msg, Ahead()) == Frames(old(Ahead()))
      ensures if msg.Some? then cursor > old(cursor) else old(cursor) <= cursor <= old(cursor) + 2
    {
      if cursor + 2 > |body| {
        return None;
      }
      FramesAt(body, cursor);
      var len := Swap16(Load16(body[cursor..cursor + 2]));
      cursor := cursor + 2;
      if cursor + len > |body| {
        return None;
      }
      msg := Some(body[cursor..cursor + len]);
      cursor := cursor + len;
    }
  }

  lemma PendingOne(all: seq<bytes>, msgs: seq<bytes>, msg: Option<bytes>, ahead: bytes)
    requires all == msgs + Pending(msg, ahead)
    ensures if msg.None? then all == msgs else all == (msgs + [msg.value]) + Frames(ahead)
  {
  }

  /** The consumer's loop over one packet body. */
  method ReadBody(body: bytes) returns (msgs: seq<bytes>)
    ensures msgs == Frames(body)
  {
    var it := new MoldMessageIterator(body);
    msgs := [];
    while true
      invariant it.Valid() && fresh(it) && it.body == body
      invariant Frames(body) == msgs + Frames(it.Ahead())
      decreases |body| - it.cursor
    {
      var msg := it.Next();
      PendingOne(Frames(body), msgs, msg, it.Ahead());
      if msg.None? {
        return;
      }
      msgs := msgs + [msg.value];
    }
  }

  // ---- Building ----

  function Encode(session: bytes, seqNo: nat, count: nat, msgs: seq<bytes>): (packet: bytes) {
    session + BigEndian(seqNo, 8) + BigEndian(count, 2) + Body(msgs)
  }

  /** Building, then parsing and iterating, gives everything back. */
  lemma PacketRoundTrip(session: bytes, seqNo: uint64, count: uint16, msgs: seq<bytes>)
    requires |session| == 10 && Sendable(msgs)
    ensures var packet := Encode(session, seqNo, count, msgs);
            && |packet| >= HEADER_BYTES
            && HeaderOf(packet) == MoldHeader(session, seqNo, count)
            && Frames(packet[HEADER_BYTES..]) == msgs
  {
    var packet := Encode(session, seqNo, count, msgs);
    PowValues();
    BigEndianRoundTrip(seqNo, 8);
    BigEndianRoundTrip(count, 2);
    assert packet[..10] == session && packet[10..18] == BigEndian(seqNo, 8);
    assert packet[18..20] == BigEndian(count, 2) && packet[HEADER_BYTES..] == Body(msgs);
    FramesRoundTrip(msgs);
  }

  /** A built packet byte by byte: the header, and then the frames. */
  lemma EncodeBytes(session: bytes, seqNo: uint64, count: uint16, msgs: seq<bytes>)
    requires |session| == 10 && Sendable(msgs)
    ensures var packet := Encode(session, seqNo, count, msgs);
            LaidOut(packet, MoldHeader(session, seqNo, count)) && packet[20..] == Body(msgs)
  {
    PacketRoundTrip(session, seqNo, count, msgs);
    HeaderBytes(Encode(session, seqNo, count, msgs));
  }

  /** A buffer after copying `src` to an offset. */
  function Copied(buffer: bytes, off: nat, src: bytes): (r: bytes)
    requires off + |src| <= |buffer|
    ensures |r| == |buffer|
  {
    buffer[..off] + src + buffer[off + |src|..]
  }

  /** Copies to adjacent places are one copy. */
  lemma CopiedTwice(buffer: bytes, off: nat, x: bytes, y: bytes)
    requires off + |x| + |y| <= |buffer|
    ensures Copied(Copied(buffer, off, x), off + |x|, y) == Copied(buffer, off, x + y)
  {
    var b := Copied(buffer, off, x);
    assert b[..off + |x|] == buffer[..off] + x;
    assert b[off + |x| + |y|..] == buffer[off + |x| + |y|..];
    assert off + |x| + |y| == off + |x + y|;
  }

  /** memcpy. */
  method CopyTo(out: array<byte>, off: nat, src: bytes)
    requires off + |src| <= out.Length
    modifies out
    ensures out[..] == Copied(old(out[..]), off, src)
  {
    for i := 0 to |src|
      invariant out[..] == old(out[..off]) + src[..i] + old(out[off + i..])
    {
      out[off + i] := src[i];
    }
  }

  method WriteHeader(out: array<byte>, session: bytes, seqNo: uint64, count: uint16)
    requires |session| == 10 && out.Length >= HEADER_BYTES
    modifies out
    ensures out[..] == Copied(old(out[..]), 0, Encode(session, seqNo, count, []))
  {
    ghost var before := out[..];
    CopyTo(out, 0, session);
    var hi := Swap32(seqNo / TWO_32);
    var lo := Swap32(seqNo % TWO_32);
    StoreSwap64(seqNo);
    CopyTo(out, 10, Store64(lo * TWO_32 + hi));
    CopiedTwice(before, 0, session, BigEndian(seqNo, 8));
    StoreSwap16(count);
    CopyTo(out, 18, Store16(Swap16(count)));
    CopiedTwice(before, 0, session + BigEndian(seqNo, 8), BigEndian(count, 2));
    assert session + BigEndian(seqNo, 8) + BigEndian(count, 2) == Encode(session, seqNo, count, []);
  }

  method WriteMessage(out: array<byte>, off: nat, msg: bytes)
    requires |msg| < TWO_16 && off + 2 + |msg| <= out.Length
    modifies out
    ensures out[..] == Copied(old(out[..]), off, Frame(msg))
  {
    ghost var before := out[..];
    StoreSwap16(|msg|);
    CopyTo(out, off, Store16(Swap16(|msg|)));
    CopyTo(out, off + 2, msg);
    CopiedTwice(before, off, BigEndian(|msg|, 2), msg);
  }

  /** Writes the messages after a header; zero when they do not fit. */
  method WriteMessages(out: array<byte>, messages: seq<bytes>) returns (n: nat)
    requires out.Length >= HEADER_BYTES && Sendable(messages)
    modifies out
    ensures var size := HEADER_BYTES + |Body(messages)|;
            if size <= out.Length then n == size && out[..] == Copied(old(out[..]), HEADER_BYTES, Body(messages))
            else n == 0
  {
    ghost var before := out[..];
    var off := HEADER_BYTES;
    for i := 0 to |messages|
      invariant off == HEADER_BYTES + |Body(messages[..i])| <= out.Length
      invariant out[..] == Copied(before, HEADER_BYTES, Body(messages[..i]))
    {
      assert messages[..i + 1] == messages[..i] + [messages[i]];
      BodySnoc(messages[..i], messages[i]);
      if off + 2 + |messages[i]| > out.Length {
        BodyPrefix(messages, i + 1);
        return 0;
      }
      WriteMessage(out, off, messages[i]);
      CopiedTwice(before, HEADER_BYTES, Body(messages[..i]), Frame(messages[i]));
      off := off + 2 + |messages[i]|;
    }
    assert messages[..|messages|] == messages;
    n := off;
  }

  lemma PacketCopied(before: bytes, after: bytes, session: bytes, seqNo: uint64, messages: seq<bytes>)
    requires |session| == 10 && 20 + |Body(messages)| <= |before|
    requires after == Copied(Copied(before, 0, Encode(session, seqNo, |messages|, [])), 20, Body(messages))
    ensures var packet := Encode(session, seqNo, |messages|, messages);
            && |packet| == 20 + |Body(messages)| && after == packet + before[|packet|..]
            && after[..|packet|] == packet && after[20..|packet|] == Body(messages)
  {
    var header, packet := Encode(session, seqNo, |messages|, []), Encode(session, seqNo, |messages|, messages);
    assert packet == header + Body(messages);
    CopiedTwice(before, 0, header, Body(messages));
    assert before[..0] + packet == packet;
    assert packet[20..] == Body(messages);
  }

  /** Writes a whole packet into `out`; zero when it does not fit. */
  method BuildMoldPacket(out: array<byte>, session: bytes, seqNo: uint64, messages: seq<bytes>) returns (n: nat)
    requires |session| == 10 && |messages| < TWO_16 && Sendable(messages)
    modifies out
    ensures var packet := Encode(session, seqNo, |messages|, messages);
            if |packet| <= out.Length then n == |packet| && out[..] == packet + old(out[n..]) else n == 0
    ensures n > 0 ==> LaidOut(out[..n], MoldHeader(session, seqNo, |messages|)) && out[20..n] == Body(messages)
  {
    EncodeBytes(session, seqNo, |messages|, messages);
    if out.Length < HEADER_BYTES {
      return 0;
    }
    ghost var before := out[..];
    WriteHeader(out, session, seqNo, |messages|);
    n := WriteMessages(out, messages);
    if n > 0 {
      PacketCopied(before, out[..], session, seqNo, messages);
    }
  }
}
