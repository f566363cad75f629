/**
  From the values a client packs to the values the server reads: the packet writer, the cipher,
  the framing of the receive buffer and the packet reader, one after the other.
 */
module EndToEnd {
  import RosePacket
  import Cipher
  import Framing
  import opened HeaderLayout

  type Number8 = RosePacket.Byte

  function Bits8(v: Number8): bv8 {
    v as bv8
  }

  function Bits(s: seq<Number8>): (r: seq<bv8>)
    ensures |r| == |s|
    ensures forall i | 0 <= i < |s| :: r[i] == Bits8(s[i])
  {
    seq(|s|, i requires 0 <= i < |s| => Bits8(s[i]))
  }

  function Number(b: bv8): Number8 {
    b as nat
  }

  function Numbers(b: seq<bv8>): (r: seq<Number8>)
    ensures |r| == |b|
    ensures forall i | 0 <= i < |b| :: r[i] == Number(b[i])
  {
    seq(|b|, i requires 0 <= i < |b| => Number(b[i]))
  }

  lemma NumberOfCast(v: Number8)
    ensures Number(v as bv8) == v
  {}

  lemma Bits8Is(v: Number8)
    ensures Bits8(v) == v as bv8
  {}

  lemma NumberOfBits(v: Number8)
    ensures Number(Bits8(v)) == v
  {
    hide Number, Bits8;
    NumberOfCast(v);
    Bits8Is(v);
  }

  lemma NumbersOfBits(s: seq<Number8>)
    ensures Numbers(Bits(s)) == s
  {
    hide Number, Bits8;
    forall i | 0 <= i < |s|
      ensures Numbers(Bits(s))[i] == s[i]
    {
      NumberOfBits(s[i]);
    }
  }

  /** A packet to be written: the writer's buffer, type, CRC and fields. */
  datatype Message = Message(
    buffer: seq<Number8>, kind: nat, crc: nat, schema: RosePacket.Schema, vals: RosePacket.Values)

  /** The fields fit and can be read back, and the type has 11 bits. */
  predicate Sendable(m: Message) {
    && |m.buffer| == RosePacket.CAPACITY && m.kind < 0x800 && m.crc < 0x1_0000
    && RosePacket.Typed(m.schema, m.vals) && RosePacket.Clean(m.vals)
    && RosePacket.HEADER + |RosePacket.Encoded(m.schema, m.vals)| < RosePacket.CAPACITY
  }

  /** The bytes of the packed message. */
  function Packed(m: Message): (r: seq<Number8>)
    requires Sendable(m)
  {
    var p := RosePacket.Written(m.buffer, m.kind, m.crc, m.schema, m.vals);
    RosePacket.WrittenContent(m.buffer, m.kind, m.crc, m.schema, m.vals);
    RosePacket.Wire(p)
  }

  /** Size, type, CRC and fields, one after the other. */
  lemma PackedParts(m: Message)
    requires Sendable(m)
    ensures var enc := RosePacket.Encoded(m.schema, m.vals);
      && |Packed(m)| == 6 + |enc| && Packed(m)[6..] == enc
      && Packed(m)[..2] == RosePacket.Little(2, |Packed(m)|) && Packed(m)[2..4] == RosePacket.Little(2, m.kind)
  {
    hide RosePacket.Encoded, RosePacket.Little, RosePacket.Written, RosePacket.Typed, RosePacket.Clean;
    RosePacket.WrittenContent(m.buffer, m.kind, m.crc, m.schema, m.vals);
    var p := RosePacket.Written(m.buffer, m.kind, m.crc, m.schema, m.vals);
    var enc := RosePacket.Encoded(m.schema, m.vals);
    var w, content := Packed(m), RosePacket.Content(p);
    assert w[2..] == content;
    assert content[..2] == RosePacket.Little(2, m.kind) && content[4..] == enc;
    assert w[2..4] == w[2..][..2] && w[6..] == w[2..][4..];
  }

  lemma HighByteSmall(v: nat)
    requires v < 0x800
    ensures v / 256 % 256 == v / 256 < 8 && Bits8(v / 256) < 8
  {}

  lemma Field11Value(low: bv8, high: bv8)
    requires high < 8
    ensures Nat11(Cipher.Field11(low, high)) == Number(low) + 256 * Number(high)
  {}

  /** Bytes that start with their own number and an 11-bit type are a packet in the cipher's sense. */
  lemma BytesArePacket(w: seq<Number8>, kind: nat)
    requires 6 <= |w| < 0x7FF && kind < 0x800
    requires w[..2] == RosePacket.Little(2, |w|) && w[2..4] == RosePacket.Little(2, kind)
    ensures Cipher.Packet(Bits(w))
  {
    hide Number, Bits8, Cipher.Field11, Nat11, RosePacket.Little;
    RosePacket.LittleWords(|w|);
    RosePacket.LittleWords(kind);
    HighByteSmall(|w|);
    HighByteSmall(kind);
    assert w[0] == w[..2][0] && w[1] == w[..2][1] && w[3] == w[2..4][1];
    Field11Value(Bits8(w[0]), Bits8(w[1]));
    NumberOfBits(w[0]);
    NumberOfBits(w[1]);
  }

  lemma PackedIsPacket(m: Message)
    requires Sendable(m)
    ensures Cipher.Packet(Bits(Packed(m)))
  {
    hide Packed, Sendable, Cipher.Packet, Bits, RosePacket.Little, RosePacket.Encoded;
    PackedSize(m);
    PackedParts(m);
    BytesArePacket(Packed(m), m.kind);
  }

  lemma PackedSize(m: Message)
    requires Sendable(m)
    ensures 6 <= |Packed(m)| < 0x7FF && m.kind < 0x800
  {
    hide RosePacket.Encoded, RosePacket.Typed, RosePacket.Clean, Packed;
    PackedParts(m);
  }

  // ---- What the receiver makes of it ------------------------------------------------------------

  /** Every packet object made from these bytes has the message's type and fields, and their number as its size. */
  ghost predicate Reads(d: seq<bv8>, m: Message) {
    |d| < RosePacket.CAPACITY &&
    forall r: seq<Number8> | |r| == RosePacket.CAPACITY && r[..|d|] == Numbers(d) ::
      && RosePacket.Read(r, 0, 2).0 == |d| && RosePacket.Read(r, 2, 2).0 == m.kind
      && RosePacket.ReadValues(m.schema, r, RosePacket.HEADER).0 == m.vals
  }

  /** Changes to bytes 4 and 5 do not matter to the reader. */
  lemma RestoredReads(m: Message, d: seq<bv8>)
    requires Sendable(m) && |d| == |Packed(m)| >= 6
    requires d[..4] == Bits(Packed(m))[..4] && d[6..] == Bits(Packed(m))[6..]
    ensures Reads(d, m)
  {
    hide Packed, Number, RosePacket.Encoded, RosePacket.Little, RosePacket.ReadValues, RosePacket.Typed;
    hide RosePacket.Clean, RosePacket.Read, RosePacket.Pow256;
    var w := Packed(m);
    PackedSize(m);
    PackedParts(m);
    NumbersOfBits(w);
    forall r: seq<Number8> | |r| == RosePacket.CAPACITY && r[..|d|] == Numbers(d)
      ensures RosePacket.Read(r, 0, 2).0 == |d| && RosePacket.Read(r, 2, 2).0 == m.kind
      ensures RosePacket.ReadValues(m.schema, r, RosePacket.HEADER).0 == m.vals
    {
      SameBytes(w, d, r);
      RosePacket.TwoBytesBelow();
      assert r[0..2] == r[..4][..2] && r[2..4] == r[..4][2..] && w[..2] == w[..4][..2] && w[2..4] == w[..4][2..];
      RosePacket.NumberReadsBack(r, 0, 2, |d|);
      RosePacket.NumberReadsBack(r, 2, 2, m.kind);
      RosePacket.ValuesReadBack(m.schema, m.vals, r, 6);
    }
  }

  lemma SameBytes(w: seq<Number8>, d: seq<bv8>, r: seq<Number8>)
    requires |d| == |w| >= 6 && |r| >= |d| && r[..|d|] == Numbers(d) && Numbers(Bits(w)) == w
    requires d[..4] == Bits(w)[..4] && d[6..] == Bits(w)[6..]
    ensures r[..4] == w[..4] && r[6..|d|] == w[6..]
  {
    hide Number, Bits;
    forall i | 0 <= i < |d| && (i < 4 || i >= 6)
      ensures r[i] == w[i]
    {
      assert r[i] == r[..|d|][i] == Number(d[i]);
      assert if i < 4 then d[i] == d[..4][i] else d[i] == d[6..][i - 6];
      assert if i < 4 then Bits(w)[i] == Bits(w)[..4][i] else Bits(w)[i] == Bits(w)[6..][i - 6];
      assert w[i] == Numbers(Bits(w))[i];
    }
  }

  lemma DeliveredReads(m: Message)
    requires Sendable(m)
    ensures Cipher.Packet(Bits(Packed(m))) && |Packed(m)| >= 6
    ensures Reads(Cipher.Delivered(Client, Bits(Packed(m))), m)
  {
    hide Sendable, Packed, Reads, Cipher.Packet, Cipher.OutHead, HeadByte, Cipher.HeadChecksum;
    PackedIsPacket(m);
    PackedSize(m);
    RestoredReads(m, Cipher.Delivered(Client, Bits(Packed(m))));
  }

  // ---- Whole conversations ------------------------------------------------------------------------

  predicate AllSendable(ms: seq<Message>) {
    forall i | 0 <= i < |ms| :: Sendable(ms[i])
  }

  /** The packets of a conversation, before encoding. */
  function Plain(ms: seq<Message>): (r: seq<seq<bv8>>)
    requires AllSendable(ms)
    ensures |r| == |ms| && Framing.Packets(r)
    ensures forall i | 0 <= i < |ms| :: r[i] == Bits(Packed(ms[i]))
  {
    var r := seq(|ms|, i requires 0 <= i < |ms| => Bits(Packed(ms[i])));
    assert Framing.Packets(r) by { AllPackets(ms, r); }
    r
  }

  lemma AllPackets(ms: seq<Message>, ps: seq<seq<bv8>>)
    requires AllSendable(ms) && |ps| == |ms| && forall i | 0 <= i < |ms| :: ps[i] == Bits(Packed(ms[i]))
    ensures Framing.Packets(ps)
  {
    hide Sendable, Packed, Cipher.Packet, Bits;
    forall i | 0 <= i < |ms|
      ensures Cipher.Packet(ps[i])
    {
      PackedIsPacket(ms[i]);
    }
  }

  /**
    Messages packed by the client, encoded, cut into reads in any way and received: what is on the receive queue
    or has been handled reads, one for one and in order, as the messages; all of them once the bytes are used up.
   */
  lemma MessagesArrive(t: Cipher.Table, ms: seq<Message>, buffer: seq<bv8>, events: seq<Framing.Event>)
    requires AllSendable(ms) && |buffer| == Framing.MAX_PACKET
    requires Framing.Run(t, Framing.Opened(buffer, Framing.Wire(t, Plain(ms))), events)
    ensures var s := Framing.Last(t, Framing.Opened(buffer, Framing.Wire(t, Plain(ms))), events);
      var got := s.link.handled + s.link.queue;
      && |got| <= |ms| && (s.wire == [] ==> |got| == |ms|)
      && forall i | 0 <= i < |got| :: Reads(got[i], ms[i])
  {
    hide Sendable, Packed, Cipher.Packet, Bits, Reads, Framing.Run, Framing.Last, Framing.Wire, Cipher.Delivered;
    hide Plain;
    Framing.FramingIsExact(t, Plain(ms), buffer, events);
    var s := Framing.Last(t, Framing.Opened(buffer, Framing.Wire(t, Plain(ms))), events);
    var got := s.link.handled + s.link.queue;
    forall i | 0 <= i < |got|
      ensures Reads(got[i], ms[i])
    {
      DeliveredReads(ms[i]);
      assert got[i] == Framing.Deliveries(Plain(ms))[i];
    }
  }
}
