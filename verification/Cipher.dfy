/**
  Encoding and decoding of packets as functions on byte sequences, and the theorems about
  them: decoding undoes encoding, and damage to one byte is always noticed.
 */
module Cipher {
  import opened Checksum
  import opened HeaderLayout
  import opened KeySchedule

  type Table = rows: seq<seq<int>> | Rows(rows) && |rows| == ROWS witness seq(ROWS, i => seq(COLUMNS, j => 0))

  const TABLE_VALUE: bv11 := 0x100
  const ADD_VALUE: bv4 := 4

  /** The low byte of an int, as `^=` on an unsigned char takes it. */
  function LowByte(v: int): Byte {
    (v % 0x100) as bv8
  }

  function Key(t: Table, row: nat, column: nat): Byte
    requires row < ROWS && column < COLUMNS
  {
    LowByte(t[row][column])
  }

  /** The key byte for body position i. */
  function BodyKey(t: Table, head: bv40, i: nat): Byte {
    Key(t, (Nat4(HeadAdd(head)) + i) % ROWS, (Nat11(HeadTable(head)) + i) % COLUMNS)
  }

  function Stream(t: Table, head: bv40, n: nat): (r: seq<Byte>)
    ensures |r| == n
    ensures forall i | 0 <= i < n :: r[i] == BodyKey(t, head, 6 + i)
  {
    seq(n, i requires 0 <= i < n => BodyKey(t, head, 6 + i))
  }

  function Column(h: bv40): (c: nat)
    ensures c < COLUMNS
  {
    Nat11(HeadTable(h))
  }

  function KeyWord(t: Table, column: nat): bv40
    requires column < COLUMNS
  {
    Join(Key(t, 0, column), Key(t, 1, column), Key(t, 2, column), Key(t, 3, column), Key(t, 4, column))
  }

  function WordOf(b: seq<Byte>): bv40
    requires |b| >= 5
  {
    Join(b[0], b[1], b[2], b[3], b[4])
  }

  function Bytes(w: bv40): (r: seq<Byte>)
    ensures |r| == 5
  {
    [HeadByte(w, 0), HeadByte(w, 1), HeadByte(w, 2), HeadByte(w, 3), HeadByte(w, 4)]
  }

  // ---- Plain packets --------------------------------------------------------------------

  /** A little-endian 16-bit value stored into an 11-bit field. */
  function Field11(low: Byte, high: Byte): bv11 {
    (low as bv11) | ((high & 7) as bv11 << 8)
  }

  function Low(v: bv16): Byte { (v & 0xFF) as bv8 }

  function High(v: bv16): Byte { (v >> 8) as bv8 }

  lemma Field11RoundTrip(low: Byte, high: Byte)
    requires high < 8
    ensures Low(Field11(low, high) as bv16) == low && High(Field11(low, high) as bv16) == high
  {}

  function PlainSize(b: seq<Byte>): nat
    requires |b| >= 2
  {
    Nat11(Field11(b[0], b[1]))
  }

  /** The end of the body: nothing is done to the body of a packet that claims less than 6 bytes. */
  function BodyEnd(size: nat): (n: nat)
    ensures n >= 6 && n >= size && (size >= 6 ==> n == size)
  {
    if size < 6 then 6 else size
  }

  /** The header an encoder works with. 0x100 + 4 is cut to three bits, giving 4. */
  function OutHead(dir: Direction, b: seq<Byte>): bv40
    requires |b| >= 4
  {
    HeadWord(Field11(b[0], b[1]), Field11(b[2], b[3]), TABLE_VALUE, ADD_VALUE, if dir.Server? then 4 else 0)
  }

  function HeadChecksum(head: bv40): Byte {
    Crc(0, Bytes(head))
  }

  // ---- Encoding and decoding ---------------------------------------------------------------

  /** The header word before masking: only the table value bits are still those of the buffer. */
  function ClearHead(dir: Direction, b: seq<Byte>): bv40
    requires |b| >= 5
  {
    WireWord(dir, FlipMain(WireView(dir, WordOf(b)), PlainView(OutHead(dir, b))))
  }

  function EncodedHead(t: Table, dir: Direction, b: seq<Byte>): bv40
    requires |b| >= 5
  {
    var masked := Plus40(ClearHead(dir, b), KeyWord(t, 0x100));
    WireWord(dir, FlipFinal(WireView(dir, masked), PlainView(OutHead(dir, b))))
  }

  predicate Encodable(b: seq<Byte>) {
    |b| >= 2 && |b| >= BodyEnd(PlainSize(b))
  }

  function Encode(t: Table, dir: Direction, b: seq<Byte>): (r: seq<Byte>)
    requires Encodable(b)
    ensures |r| == |b|
  {
    var n := BodyEnd(PlainSize(b));
    Bytes(EncodedHead(t, dir, b)) + Sealed(t, OutHead(dir, b), b[6..n]) + b[n..]
  }

  /** Checksum and masked body for a given header. */
  function Sealed(t: Table, head: bv40, body: seq<Byte>): (r: seq<Byte>)
    ensures |r| == |body| + 1
  {
    [Crc(HeadChecksum(head), body)] + Xor(body, Stream(t, head, |body|))
  }

  /** The header recovered from the first five bytes. */
  function DecodedHead(t: Table, dir: Direction, w: bv40): bv40 {
    var start := FlipFinal(PlainView(0), WireView(dir, w));
    var column := Column(PlainWord(start));
    PlainWord(FlipMain(start, WireView(dir, Plus40(w, KeyWord(t, column)))))
  }

  function DecodeHeader(t: Table, dir: Direction, b: seq<Byte>): (r: (seq<Byte>, nat))
    requires |b| >= 5
    ensures |r.0| == |b| && r.0[5..] == b[5..]
  {
    var head := DecodedHead(t, dir, WordOf(b));
    (Bytes(head) + b[5..], Nat11(HeadSize(head)))
  }

  /** The length decodeBody works with; the client's subtraction wraps at 16 bits. */
  function BodyLength(dir: Direction, head: bv40): bv16 {
    if dir.Server? then HeadSize(head) as bv16 else (HeadSize(head) as bv16) - (HeadValue(head) as bv16)
  }

  predicate Decodable(dir: Direction, b: seq<Byte>) {
    |b| >= 6 && |b| >= BodyEnd(Nat16(BodyLength(dir, WordOf(b))))
  }

  function PlainBody(t: Table, dir: Direction, b: seq<Byte>): seq<Byte>
    requires Decodable(dir, b)
  {
    var n := BodyEnd(Nat16(BodyLength(dir, WordOf(b))));
    Xor(b[6..n], Stream(t, WordOf(b), n - 6))
  }

  predicate Accepts(t: Table, dir: Direction, b: seq<Byte>)
    requires Decodable(dir, b)
  {
    Crc(HeadChecksum(WordOf(b)), PlainBody(t, dir, b)) == b[5]
  }

  /** Four bytes that hold size and command of a decoded packet. */
  function PlainHead(length: bv16, command: bv11): (r: seq<Byte>)
    ensures |r| == 4
  {
    [Low(length), High(length), Low(command as bv16), High(command as bv16)]
  }

  function DecodeBody(t: Table, dir: Direction, b: seq<Byte>): (r: seq<Byte>)
    requires Decodable(dir, b)
    ensures |r| == |b|
  {
    var head := WordOf(b);
    var n := BodyEnd(Nat16(BodyLength(dir, head)));
    var start := if Accepts(t, dir, b) then PlainHead(BodyLength(dir, head), HeadCommand(head)) else b[..4];
    start + b[4..6] + PlainBody(t, dir, b) + b[n..]
  }

  // ---- Decoding undoes encoding ---------------------------------------------------------------

  lemma JoinOfBytes(w: bv40, rest: seq<Byte>)
    ensures WordOf(Bytes(w) + rest) == w
  {
    hide Join, HeadByte;
    JoinBytes(w);
  }

  lemma SameTableValue(f: Fields, g: Fields, x: Fields)
    requires FlipFinal(f, g) == f
    ensures FlipMain(f, x) == FlipMain(g, x)
  {}

  lemma FlipFinalTwice(z: Fields, x: Fields, h: Fields)
    ensures FlipFinal(FlipFinal(z, FlipFinal(x, h)), h) == FlipFinal(z, FlipFinal(x, h))
  {}

  lemma FlipMainTwice(x: Fields, h: Fields)
    ensures FlipMain(h, FlipMain(x, h)) == h
  {}

  lemma OutHeadColumn(dir: Direction, b: seq<Byte>)
    requires |b| >= 4
    ensures HeadTable(OutHead(dir, b)) == TABLE_VALUE && Column(OutHead(dir, b)) == 0x100
  {
    HeadRoundTrip(Field11(b[0], b[1]), Field11(b[2], b[3]), TABLE_VALUE, ADD_VALUE, if dir.Server? then 4 else 0);
  }

  lemma SameColumn(v: bv40, w: bv40)
    requires HeadTable(v) == HeadTable(w)
    ensures Column(v) == Column(w)
  {}

  /** Any header, laid over any word, masked with its own key column and given its table value in clear. */
  function SealedHead(t: Table, dir: Direction, w: bv40, head: bv40): bv40 {
    var h := PlainView(head);
    var masked := Plus40(WireWord(dir, FlipMain(WireView(dir, w), h)), KeyWord(t, Column(head)));
    WireWord(dir, FlipFinal(WireView(dir, masked), h))
  }

  /** Whatever the header and whatever lay under it, decoding gets the header back. */
  lemma AnyHeadDecodes(t: Table, dir: Direction, w: bv40, head: bv40)
    ensures DecodedHead(t, dir, SealedHead(t, dir, w, head)) == head
  {
    hide WireView, WireWord, FlipMain, FlipFinal, PlainView, PlainWord, Plus40, KeyWord, Column, HeadTable;
    var h, key := PlainView(head), KeyWord(t, Column(head));
    var clear := WireWord(dir, FlipMain(WireView(dir, w), h));
    var masked := Plus40(clear, key);
    var sealed := SealedHead(t, dir, w, head);
    LayoutBijective(dir, masked, FlipFinal(WireView(dir, masked), h));
    assert WireView(dir, sealed) == FlipFinal(WireView(dir, masked), h);
    var start := FlipFinal(PlainView(0), WireView(dir, sealed));
    FlipFinalTwice(PlainView(0), WireView(dir, masked), h);
    TableFromFields(start, h);
    PlainBijective(head, h);
    SameColumn(PlainWord(start), head);
    KeyCancels(dir, clear, key, h);
    LayoutBijective(dir, masked, FlipMain(WireView(dir, w), h));
    FlipMainTwice(WireView(dir, w), h);
    SameTableValue(start, h, WireView(dir, Plus40(sealed, key)));
  }

  /** The header of an encoded packet decodes to the header it was made from. */
  lemma HeadDecodes(t: Table, dir: Direction, b: seq<Byte>)
    requires |b| >= 5
    ensures DecodedHead(t, dir, EncodedHead(t, dir, b)) == OutHead(dir, b)
  {
    hide WireView, WireWord, FlipMain, FlipFinal, PlainView, Plus40, KeyWord, Column, HeadTable, OutHead, WordOf;
    hide DecodedHead;
    OutHeadColumn(dir, b);
    AnyHeadDecodes(t, dir, WordOf(b), OutHead(dir, b));
  }

  /** What a receiver gets: bytes 4 and 5 hold leftovers of the header and the checksum. */
  function Delivered(dir: Direction, b: seq<Byte>): seq<Byte>
    requires |b| >= 6
  {
    b[..4] + [HeadByte(OutHead(dir, b), 4), Crc(HeadChecksum(OutHead(dir, b)), b[6..])] + b[6..]
  }

  /** A packet as the program builds them: size field equal to the length, 11-bit size and type. */
  predicate Packet(b: seq<Byte>) {
    6 <= |b| < 0x800 && b[1] < 8 && b[3] < 8 && PlainSize(b) == |b|
  }

  lemma PacketLength(b: seq<Byte>)
    requires Packet(b)
    ensures 6 <= |b| < 0x800 && Encodable(b) && Nat11(Field11(b[0], b[1])) == |b|
  {
    hide Field11, Nat11;
  }

  lemma HeadParts(dir: Direction, size: bv11, command: bv11)
    ensures var w := HeadWord(size, command, TABLE_VALUE, ADD_VALUE, if dir.Server? then 4 else 0);
      HeadSize(w) == size && HeadCommand(w) == command && BodyLength(dir, w) == size as bv16
  {
    hide HeadSize, HeadCommand, HeadWord, HeadTable, HeadAdd, HeadValue, BodyLength, Nat16, Nat11, Nat4;
    var value: bv3 := if dir.Server? then 4 else 0;
    HeadRoundTrip(size, command, TABLE_VALUE, ADD_VALUE, value);
    BodyLengthIsSize(dir, HeadWord(size, command, TABLE_VALUE, ADD_VALUE, value));
  }

  lemma BodyLengthIsSize(dir: Direction, head: bv40)
    requires dir.Server? || HeadValue(head) == 0
    ensures BodyLength(dir, head) == HeadSize(head) as bv16
  {}

  lemma OutHeadParts(dir: Direction, b: seq<Byte>)
    requires Packet(b)
    ensures HeadSize(OutHead(dir, b)) == Field11(b[0], b[1])
    ensures HeadCommand(OutHead(dir, b)) == Field11(b[2], b[3])
    ensures BodyLength(dir, OutHead(dir, b)) == Field11(b[0], b[1]) as bv16
    ensures Nat11(HeadSize(OutHead(dir, b))) == Nat16(BodyLength(dir, OutHead(dir, b))) == |b|
  {
    hide *;
    PacketLength(b);
    var size, command := Field11(b[0], b[1]), Field11(b[2], b[3]);
    OutHeadIs(dir, b, size, command);
    HeadParts(dir, size, command);
    Widen(size);
  }

  lemma OutHeadIs(dir: Direction, b: seq<Byte>, size: bv11, command: bv11)
    requires |b| >= 4 && size == Field11(b[0], b[1]) && command == Field11(b[2], b[3])
    ensures OutHead(dir, b) == HeadWord(size, command, TABLE_VALUE, ADD_VALUE, if dir.Server? then 4 else 0)
  {
    hide HeadWord, Field11, Nat11;
  }

  lemma Widen(v: bv11)
    ensures Nat16(v as bv16) == Nat11(v)
  {}

  lemma {:induction false} XorTwice(x: seq<Byte>, key: seq<Byte>)
    requires |x| == |key|
    ensures Xor(Xor(x, key), key) == x
  {
    hide Plus;
    forall i | 0 <= i < |x|
      ensures Xor(Xor(x, key), key)[i] == x[i]
    {
      PlusCancels(x[i], key[i]);
    }
  }

  /** The size comes back from the first six bytes alone. */
  lemma HeaderRoundTrip(t: Table, dir: Direction, b: seq<Byte>)
    requires Packet(b)
    ensures var (decoded, size) := DecodeHeader(t, dir, Encode(t, dir, b)[..6]);
      size == |b| && decoded == Bytes(OutHead(dir, b)) + Encode(t, dir, b)[5..6]
  {
    hide EncodedHead, DecodedHead, WordOf, OutHead, HeadSize, Xor, Crc, Nat11;
    var e := Encode(t, dir, b);
    var w := EncodedHead(t, dir, b);
    assert e[..6] == Bytes(w) + e[5..6];
    JoinOfBytes(w, e[5..6]);
    HeadDecodes(t, dir, b);
    OutHeadParts(dir, b);
    assert e[..6][5..] == e[5..6];
  }

  lemma EncodeIsSealed(t: Table, dir: Direction, b: seq<Byte>)
    requires Packet(b)
    ensures Encode(t, dir, b) == Bytes(EncodedHead(t, dir, b)) + Sealed(t, OutHead(dir, b), b[6..])
  {
    hide EncodedHead, OutHead, Sealed, Bytes, Field11, Nat11;
    var n := |b|;
    assert b[6..n] == b[6..];
    assert b[n..] == [];
  }

  lemma DecodableFrom(dir: Direction, b: seq<Byte>, head: bv40, n: nat)
    requires 6 <= n <= |b| && WordOf(b) == head && Nat16(BodyLength(dir, head)) == n
    ensures Decodable(dir, b)
  {
    hide WordOf, BodyLength, Nat16;
  }

  lemma PlainBodyFrom(t: Table, dir: Direction, b: seq<Byte>, n: nat)
    requires |b| == 6 + n && Nat16(BodyLength(dir, WordOf(b))) == 6 + n
    ensures Decodable(dir, b) && PlainBody(t, dir, b) == Xor(b[6..], Stream(t, WordOf(b), n))
  {
    hide *;
    DecodableFrom(dir, b, WordOf(b), 6 + n);
    DecodeBodyIs(t, dir, b, WordOf(b), 6 + n);
    assert b[6..6 + n] == b[6..];
  }

  lemma SealedParts(t: Table, head: bv40, body: seq<Byte>)
    ensures Sealed(t, head, body)[0] == Crc(HeadChecksum(head), body)
    ensures Sealed(t, head, body)[1..] == Xor(body, Stream(t, head, |body|))
  {
    hide Crc, HeadChecksum, Xor, Stream;
  }

  /** Unmasking a sealed body gives it back. */
  lemma UnsealedBody(t: Table, dir: Direction, head: bv40, body: seq<Byte>)
    requires Nat16(BodyLength(dir, head)) == 6 + |body|
    ensures var received := Bytes(head) + Sealed(t, head, body);
      && WordOf(received) == head && Decodable(dir, received)
      && PlainBody(t, dir, received) == body
      && received[5] == Crc(HeadChecksum(head), body)
  {
    hide *;
    var received := Bytes(head) + Sealed(t, head, body);
    JoinOfBytes(head, Sealed(t, head, body));
    SealedParts(t, head, body);
    assert received[6..] == Sealed(t, head, body)[1..];
    PlainBodyFrom(t, dir, received, |body|);
    XorTwice(body, Stream(t, head, |body|));
  }

  lemma DecodeSealed(t: Table, dir: Direction, head: bv40, body: seq<Byte>)
    requires Nat16(BodyLength(dir, head)) == 6 + |body|
    ensures var received := Bytes(head) + Sealed(t, head, body);
      && Decodable(dir, received) && Accepts(t, dir, received)
      && DecodeBody(t, dir, received) == PlainHead(BodyLength(dir, head), HeadCommand(head))
           + [HeadByte(head, 4), Crc(HeadChecksum(head), body)] + body
  {
    hide *;
    UnsealedBody(t, dir, head, body);
    var received := Bytes(head) + Sealed(t, head, body);
    DecodeBodyIs(t, dir, received, head, 6 + |body|);
    BytesAt4(head);
    Regroup(PlainHead(BodyLength(dir, head), HeadCommand(head)), received, body);
  }

  lemma Regroup<T>(start: seq<T>, received: seq<T>, body: seq<T>)
    requires |received| == 6 + |body|
    ensures start + (received[4..6] + body + received[6 + |body|..]) == start + [received[4], received[5]] + body
  {
    assert received[4..6] == [received[4], received[5]];
  }

  /** Body decoding accepts and restores everything but bytes 4 and 5. */
  lemma BodyRoundTrip(t: Table, dir: Direction, b: seq<Byte>)
    requires Packet(b)
    ensures var received := Bytes(OutHead(dir, b)) + Encode(t, dir, b)[5..];
      && Decodable(dir, received)
      && Accepts(t, dir, received)
      && DecodeBody(t, dir, received) == Delivered(dir, b)
  {
    hide *;
    PacketLength(b);
    EncodeIsSealed(t, dir, b);
    assert Encode(t, dir, b)[5..] == Sealed(t, OutHead(dir, b), b[6..]);
    OutHeadParts(dir, b);
    DecodeSealed(t, dir, OutHead(dir, b), b[6..]);
    PlainHeadRestored(dir, b);
    DeliveredParts(dir, b);
  }

  lemma DeliveredParts(dir: Direction, b: seq<Byte>)
    requires |b| >= 6
    ensures Delivered(dir, b) ==
      b[..4] + [HeadByte(OutHead(dir, b), 4), Crc(HeadChecksum(OutHead(dir, b)), b[6..])] + b[6..]
  {
    hide OutHead, HeadByte, Crc, HeadChecksum;
  }

  lemma BytesAt4(w: bv40)
    ensures Bytes(w)[4] == HeadByte(w, 4)
  {}

  lemma PlainHeadIs(size: bv11, command: bv11, b: seq<Byte>)
    requires |b| == 4
    requires b[0] == Low(size as bv16) && b[1] == High(size as bv16)
    requires b[2] == Low(command as bv16) && b[3] == High(command as bv16)
    ensures PlainHead(size as bv16, command) == b
  {
    hide Low, High;
  }

  lemma PacketHighBytes(b: seq<Byte>)
    requires Packet(b)
    ensures |b| >= 6 && b[1] < 8 && b[3] < 8
  {
    hide Field11, Nat11;
  }

  lemma PlainFieldsRestored(b: seq<Byte>)
    requires Packet(b)
    ensures PlainHead(Field11(b[0], b[1]) as bv16, Field11(b[2], b[3])) == b[..4]
  {
    hide Field11, Low, High, Packet, PlainHead;
    PacketHighBytes(b);
    var (b0, b1, b2, b3) := (b[0], b[1], b[2], b[3]);
    Field11RoundTrip(b0, b1);
    Field11RoundTrip(b2, b3);
    PlainHeadIs(Field11(b0, b1), Field11(b2, b3), b[..4]);
  }

  lemma PlainHeadRestored(dir: Direction, b: seq<Byte>)
    requires Packet(b)
    ensures PlainHead(BodyLength(dir, OutHead(dir, b)), HeadCommand(OutHead(dir, b))) == b[..4]
  {
    hide *;
    PacketLength(b);
    OutHeadParts(dir, b);
    PlainFieldsRestored(b);
  }

  /** Header first, body after: what OnReceived makes of the bytes of one packet. */
  function Receive(t: Table, dir: Direction, wire: seq<Byte>): (r: (bool, seq<Byte>, nat))
    requires |wire| >= 6
    requires var received := DecodeHeader(t, dir, wire[..6]).0 + wire[6..]; Decodable(dir, received)
  {
    var (head, size) := DecodeHeader(t, dir, wire[..6]);
    var received := head + wire[6..];
    (Accepts(t, dir, received), DecodeBody(t, dir, received), size)
  }

  lemma ReceivedIsSealed(t: Table, dir: Direction, b: seq<Byte>)
    requires Packet(b)
    ensures Encodable(b) && |b| >= 6
    ensures DecodeHeader(t, dir, Encode(t, dir, b)[..6]).0 + Encode(t, dir, b)[6..]
         == Bytes(OutHead(dir, b)) + Encode(t, dir, b)[5..]
  {
    hide *;
    PacketLength(b);
    HeaderRoundTrip(t, dir, b);
    var e := Encode(t, dir, b);
    assert e[5..] == e[5..6] + e[6..];
  }

  /** For every seed and in both directions, a codec of the same seed gets the packet back. */
  lemma CodecRoundTrip(seed: KeySchedule.Word, dir: Direction, b: seq<Byte>)
    requires Packet(b)
    ensures var t := KeyTable(seed);
      var wire := Encode(t, dir, b);
      && Decodable(dir, DecodeHeader(t, dir, wire[..6]).0 + wire[6..])
      && Receive(t, dir, wire) == (true, Delivered(dir, b), |b|)
      && Delivered(dir, b)[..4] == b[..4] && Delivered(dir, b)[6..] == b[6..]
  {
    hide KeyTable, Encode, DecodeHeader, DecodeBody, Accepts, Decodable, Packet, Bytes, OutHead;
    hide HeadByte, Crc, HeadChecksum;
    var t := KeyTable(seed);
    PacketLength(b);
    ReceivedIsSealed(t, dir, b);
    BodyRoundTrip(t, dir, b);
    HeaderRoundTrip(t, dir, b);
  }

  /** Byte 4 of a delivered packet is the top of its header: the two constants of the encoder. */
  lemma LeftoverByte(size: bv11, command: bv11)
    ensures HeadByte(HeadWord(size, command, TABLE_VALUE, ADD_VALUE, 4), 4) == 0x88
    ensures HeadByte(HeadWord(size, command, TABLE_VALUE, ADD_VALUE, 0), 4) == 0x08
  {}

  /** A packet comes back whole exactly when its CRC field happens to hold what the codec leaves there. */
  lemma WholeIff(dir: Direction, b: seq<Byte>)
    requires |b| >= 6
    ensures Delivered(dir, b) == b <==>
      b[4] == (if dir.Server? then 0x88 else 0x08) && b[5] == Crc(HeadChecksum(OutHead(dir, b)), b[6..])
  {
    hide HeadWord, HeadByte, Crc, HeadChecksum, Field11;
    LeftoverByte(Field11(b[0], b[1]), Field11(b[2], b[3]));
    var d := Delivered(dir, b);
    assert d[4] == HeadByte(OutHead(dir, b), 4) && d[5] == Crc(HeadChecksum(OutHead(dir, b)), b[6..]);
    if b[4] == d[4] && b[5] == d[5] {
      assert b == b[..4] + [b[4], b[5]] + b[6..];
    }
  }

  /** No packet written with CRC 0, which is what the constructor takes by default, comes back whole. */
  lemma CrcFieldIsLost(dir: Direction, b: seq<Byte>)
    requires |b| >= 6 && b[4] == 0 && b[5] == 0
    ensures Delivered(dir, b) != b
  {
    hide Delivered;
    WholeIff(dir, b);
  }

  // ---- Bodies step by step ------------------------------------------------------------

  lemma WordOfPrefix(b: seq<Byte>, c: seq<Byte>)
    requires |b| >= 5 && |c| >= 5 && b[..5] == c[..5]
    ensures WordOf(b) == WordOf(c)
  {
    hide Join;
    forall i | 0 <= i < 5
      ensures b[i] == c[i]
    {
      assert b[..5][i] == c[..5][i];
    }
  }

  lemma DecodeBodyIs(t: Table, dir: Direction, b: seq<Byte>, head: bv40, n: nat)
    requires Decodable(dir, b) && head == WordOf(b) && n == BodyEnd(Nat16(BodyLength(dir, head)))
    ensures PlainBody(t, dir, b) == Xor(b[6..n], Stream(t, head, n - 6))
    ensures Accepts(t, dir, b) <==> Crc(HeadChecksum(head), PlainBody(t, dir, b)) == b[5]
    ensures DecodeBody(t, dir, b)
         == (if Accepts(t, dir, b) then PlainHead(BodyLength(dir, head), HeadCommand(head)) else b[..4])
            + (b[4..6] + PlainBody(t, dir, b) + b[n..])
  {
    hide WordOf, BodyLength, HeadChecksum, Crc, Xor, Stream, HeadCommand, PlainHead, Nat16;
  }

  // ---- Damage is noticed --------------------------------------------------------------------

  ghost predicate SameHeader(dir: Direction, b: seq<Byte>, c: seq<Byte>) {
    Decodable(dir, b) && |b| == |c| && b[..5] == c[..5]
  }

  function MaskedBody(dir: Direction, b: seq<Byte>): seq<Byte>
    requires Decodable(dir, b)
  {
    b[6..BodyEnd(Nat16(BodyLength(dir, WordOf(b))))]
  }

  lemma SameHeaderWord(dir: Direction, b: seq<Byte>, c: seq<Byte>)
    requires SameHeader(dir, b, c)
    ensures WordOf(c) == WordOf(b) && Decodable(dir, c) && |MaskedBody(dir, c)| == |MaskedBody(dir, b)|
  {
    hide Join, BodyLength, Nat16;
    assert forall i | 0 <= i < 5 :: b[i] == b[..5][i] && c[i] == c[..5][i];
  }

  /** The key cancels when two bodies under the same header are compared. */
  lemma {:induction false} KeyDropsOut(x: seq<Byte>, y: seq<Byte>, key: seq<Byte>)
    requires |x| == |y| == |key|
    ensures Xor(Xor(x, key), Xor(y, key)) == Xor(x, y)
  {
    hide Plus;
    forall i | 0 <= i < |x|
      ensures Xor(Xor(x, key), Xor(y, key))[i] == Xor(x, y)[i]
    {
      Exchange(x[i], key[i], y[i], key[i]);
      PlusCancels(key[i], key[i]);
      PlusZero(Plus(x[i], y[i]));
    }
  }

  lemma PlusSolves(a: Byte, b: Byte, c: Byte)
    ensures Plus(a, b) == Plus(a, c) <==> b == c
  {
    if Plus(a, b) == Plus(a, c) {
      assert a ^ (a ^ b) == b;
      assert a ^ (a ^ c) == c;
    }
  }

  lemma PlainBodyIs(t: Table, dir: Direction, b: seq<Byte>)
    requires Decodable(dir, b)
    ensures PlainBody(t, dir, b) == Xor(MaskedBody(dir, b), Stream(t, WordOf(b), |MaskedBody(dir, b)|))
  {
    hide WordOf, BodyLength, Xor, Stream, Nat16;
  }

  /** Of two packets under one header, one of them intact: exactly when is the other let through? */
  lemma AcceptedIffSyndromeMatches(t: Table, dir: Direction, b: seq<Byte>, c: seq<Byte>)
    requires SameHeader(dir, b, c) && Accepts(t, dir, b)
    ensures Decodable(dir, c) && |MaskedBody(dir, c)| == |MaskedBody(dir, b)|
    ensures Accepts(t, dir, c) <==> Crc(0, Xor(MaskedBody(dir, b), MaskedBody(dir, c))) == Plus(b[5], c[5])
  {
    hide Decodable, PlainBody, MaskedBody, Stream, Xor, Crc, Plus, WordOf, HeadChecksum, SameHeader;
    SameHeaderSize(dir, b, c);
    SameHeaderWord(dir, b, c);
    var x, y := MaskedBody(dir, b), MaskedBody(dir, c);
    var key, h := Stream(t, WordOf(b), |x|), HeadChecksum(WordOf(b));
    PlainBodyIs(t, dir, b);
    PlainBodyIs(t, dir, c);
    KeyDropsOut(x, y, key);
    CrcLinear(h, h, Xor(x, key), Xor(y, key));
    PlusCancels(h, h);
    PlusSolves(b[5], Crc(h, Xor(y, key)), c[5]);
  }

  lemma SameHeaderSize(dir: Direction, b: seq<Byte>, c: seq<Byte>)
    requires SameHeader(dir, b, c)
    ensures |c| == |b| >= 6 && Decodable(dir, b)
  {
    hide WordOf, BodyLength, Nat16;
  }

  /** Damage confined to the checksum byte or to one byte of the body never passes. */
  lemma OneByteDamageRejected(t: Table, dir: Direction, b: seq<Byte>, k: nat, damaged: Byte)
    requires Decodable(dir, b) && Accepts(t, dir, b)
    requires 5 <= k < BodyEnd(Nat16(BodyLength(dir, WordOf(b)))) && damaged != b[k]
    ensures Decodable(dir, b[k := damaged]) && !Accepts(t, dir, b[k := damaged])
  {
    hide WordOf, BodyLength, Accepts, Crc, Xor, Plus, HeadChecksum, Nat16;
    var c := b[k := damaged];
    assert c[..5] == b[..5];
    SameHeaderWord(dir, b, c);
    AcceptedIffSyndromeMatches(t, dir, b, c);
    var x, y := MaskedBody(dir, b), MaskedBody(dir, c);
    var d := Xor(x, y);
    forall i | 0 <= i < |d|
      ensures d[i] == 0 <==> i + 6 != k
    {
      PlusCancels(x[i], y[i]);
    }
    PlusCancels(b[5], c[5]);
    if k == 5 {
      CrcOfZeros(0, d);
    } else {
      CrcOfOneByte(d, k - 6);
    }
  }
}
