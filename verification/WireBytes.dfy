/**
  What goes over the wire, byte by byte: which bits of the header go where, which entry of the
  key table masks which byte, and what the checksum covers.
 */
module WireBytes {
  import opened Checksum
  import opened HeaderLayout
  import opened KeySchedule
  import opened Cipher

  /** The low byte of a table entry. */
  function Entry(t: Table, row: nat, column: nat): bv8
    requires row < 16 && column < 0x800
  {
    (t[row][column] % 0x100) as bv8
  }

  // ---- The header before masking ----------------------------------------------------------------

  /** Size and type with 11 bits each, then 0x100, 4, and 4 or 0, packed from the lowest bit up. */
  function HeaderBytes(dir: Direction, b0: bv8, b1: bv8, b2: bv8, b3: bv8): seq<bv8> {
    [b0, (b1 & 7) | (b2 << 3), (b2 >> 5) | ((b3 & 7) << 3), 0x40, if dir.Server? then 0x88 else 0x08]
  }

  lemma PackedHeader(b0: bv8, b1: bv8, b2: bv8, b3: bv8, value: bv3)
    requires value == 4 || value == 0
    ensures var w := HeadWord(Field11(b0, b1), Field11(b2, b3), 0x100, 4, value);
      && HeadByte(w, 0) == b0 && HeadByte(w, 1) == (b1 & 7) | (b2 << 3)
      && HeadByte(w, 2) == (b2 >> 5) | ((b3 & 7) << 3) && HeadByte(w, 3) == 0x40
      && HeadByte(w, 4) == (if value == 4 then 0x88 else 0x08)
  {}

  /** The header an encoder starts from, written out. */
  lemma OutHeadBytes(dir: Direction, b: seq<Byte>)
    requires |b| >= 4
    ensures Bytes(OutHead(dir, b)) == HeaderBytes(dir, b[0], b[1], b[2], b[3])
  {
    hide HeadWord, HeadByte, Field11;
    PackedHeader(b[0], b[1], b[2], b[3], if dir.Server? then 4 else 0);
  }

  // ---- The two wire layouts ----------------------------------------------------------------------

  /** The order in which HeadCryptedServer declares the pieces of the header. */
  lemma ServerLayout(head: bv40)
    ensures var w := ServerWord(PlainView(head));
      && w & 7 == (head >> 3) & 7 && (w >> 3) & 7 == (head >> 22) & 7 && (w >> 6) & 7 == (head >> 17) & 7
      && (w >> 9) & 7 == (head >> 37) & 7 && (w >> 12) & 7 == (head >> 6) & 7 && (w >> 15) & 7 == (head >> 28) & 7
      && (w >> 18) & 7 == (head >> 14) & 7 && (w >> 21) & 3 == (head >> 31) & 3 && (w >> 23) & 7 == (head >> 11) & 7
      && (w >> 26) & 3 == (head >> 33) & 3 && (w >> 28) & 3 == (head >> 9) & 3 && (w >> 30) & 3 == (head >> 35) & 3
      && (w >> 32) & 7 == head & 7 && (w >> 35) & 7 == (head >> 25) & 7 && (w >> 38) & 3 == (head >> 20) & 3
  {}

  /** The order in which HeadCryptedClient declares them. */
  lemma ClientLayout(head: bv40)
    ensures var w := ClientWord(PlainView(head));
      && w & 7 == (head >> 14) & 7 && (w >> 3) & 7 == (head >> 25) & 7 && (w >> 6) & 7 == head & 7
      && (w >> 9) & 7 == (head >> 28) & 7 && (w >> 12) & 7 == (head >> 11) & 7 && (w >> 15) & 7 == (head >> 37) & 7
      && (w >> 18) & 7 == (head >> 3) & 7 && (w >> 21) & 3 == (head >> 35) & 3 && (w >> 23) & 7 == (head >> 6) & 7
      && (w >> 26) & 3 == (head >> 31) & 3 && (w >> 28) & 3 == (head >> 20) & 3 && (w >> 30) & 3 == (head >> 33) & 3
      && (w >> 32) & 7 == (head >> 17) & 7 && (w >> 35) & 7 == (head >> 22) & 7 && (w >> 38) & 3 == (head >> 9) & 3
  {}

  // ---- The header on the wire ------------------------------------------------------------------------

  /** All bits but those of the table value. */
  function MainBits(dir: Direction): bv40 {
    if dir.Server? then 0xC7FF9C7FC7 else 0xC7F3FFF1C7
  }

  /** The bits of `masked` where the mask has ones, those of `plain` elsewhere. */
  function Blend(masked: bv40, plain: bv40, mask: bv40): bv40 {
    Masked(masked, mask) | Masked(plain, !mask)
  }

  lemma ServerSealed(masked: bv40, h: Fields)
    ensures ServerWord(FlipFinal(ServerView(masked), h)) == Blend(masked, ServerWord(h), 0xC7FF9C7FC7)
  {}

  lemma ClientSealed(masked: bv40, h: Fields)
    ensures ClientWord(FlipFinal(ClientView(masked), h)) == Blend(masked, ClientWord(h), 0xC7F3FFF1C7)
  {}

  lemma ServerClear(f: Fields, h: Fields)
    ensures Masked(ServerWord(FlipMain(f, h)), 0xC7FF9C7FC7) == Masked(ServerWord(h), 0xC7FF9C7FC7)
  {}

  lemma ClientClear(f: Fields, h: Fields)
    ensures Masked(ClientWord(FlipMain(f, h)), 0xC7F3FFF1C7) == Masked(ClientWord(h), 0xC7F3FFF1C7)
  {}

  lemma BlendMasked(clear: bv40, plain: bv40, key: bv40, mask: bv40)
    requires Masked(clear, mask) == Masked(plain, mask)
    ensures Blend(Plus40(clear, key), plain, mask) == Blend(Plus40(plain, key), plain, mask)
  {
    hide Masked, Plus40;
    MaskedPlus(clear, key, mask);
    MaskedPlus(plain, key, mask);
  }

  lemma SealedIs(dir: Direction, w: bv40, key: bv40, h: Fields)
    ensures var plain := WireWord(dir, h);
      WireWord(dir, FlipFinal(WireView(dir, Plus40(WireWord(dir, FlipMain(WireView(dir, w), h)), key)), h))
      == Blend(Plus40(plain, key), plain, MainBits(dir))
  {
    hide ServerView, ServerWord, ClientView, ClientWord, FlipMain, FlipFinal, Blend, Masked, Plus40;
    var plain := WireWord(dir, h);
    var clear := WireWord(dir, FlipMain(WireView(dir, w), h));
    if dir.Server? {
      ServerSealed(Plus40(clear, key), h);
      ServerClear(ServerView(w), h);
    } else {
      ClientSealed(Plus40(clear, key), h);
      ClientClear(ClientView(w), h);
    }
    BlendMasked(clear, plain, key, MainBits(dir));
  }

  /**
    The first five bytes of an encoded packet: its header in the wire layout, masked with column 0x100 of the
    first five rows, except for the table value, which stays in clear.
   */
  lemma HeaderOnWire(t: Table, dir: Direction, b: seq<Byte>)
    requires Packet(b)
    ensures |b| >= 6 && Encodable(b)
    ensures var head := PlainView(OutHead(dir, b));
      var plain := if dir.Server? then ServerWord(head) else ClientWord(head);
      var key := Join(Entry(t, 0, 0x100), Entry(t, 1, 0x100), Entry(t, 2, 0x100), Entry(t, 3, 0x100),
        Entry(t, 4, 0x100));
      WordOf(Encode(t, dir, b)) == Blend(Plus40(plain, key), plain, MainBits(dir))
  {
    hide Packet, Encode, WireView, FlipMain, FlipFinal, PlainView, OutHead, Plus40, Blend, Join, WordOf;
    hide ServerWord, ClientWord, Sealed, Bytes, MainBits;
    PacketLength(b);
    EncodeIsSealed(t, dir, b);
    JoinOfBytes(EncodedHead(t, dir, b), Sealed(t, OutHead(dir, b), b[6..]));
    SealedIs(dir, WordOf(b), KeyWord(t, 0x100), PlainView(OutHead(dir, b)));
  }

  // ---- The checksum --------------------------------------------------------------------------------

  lemma {:induction false} CrcGoesOn(c: Byte, x: seq<Byte>, y: seq<Byte>)
    ensures Crc(Crc(c, x), y) == Crc(c, x + y)
    decreases |y|
  {
    hide CrcTable, Plus;
    if |y| == 0 {
      assert x + y == x;
    } else {
      var n := |y| - 1;
      CrcGoesOn(c, x, y[..n]);
      assert (x + y)[..|x + y| - 1] == x + y[..n];
    }
  }

  /** The checksum as a shift register: each byte is added in, then eight shifts. */
  function Register(c: bv8, data: seq<bv8>): bv8
    decreases |data|
  {
    if |data| == 0 then c else Register(Shift8(data[0] ^ c), data[1..])
  }

  lemma {:induction false} CrcIsRegister(c: Byte, data: seq<Byte>)
    ensures Crc(c, data) == Register(c, data)
    decreases |data|
  {
    hide CrcTable, Shift8;
    if |data| > 0 {
      var x := data[0];
      CrcGoesOn(c, [x], data[1..]);
      assert [x] + data[1..] == data;
      CrcOne(c, x);
      TableIsPolynomial(x ^ c);
      CrcIsRegister(CrcTable(x ^ c), data[1..]);
    }
  }

  lemma CrcOne(c: Byte, x: Byte)
    ensures Crc(c, [x]) == CrcTable(x ^ c)
  {
    hide CrcTable;
    CrcEmpty(c);
    CrcAppend(c, [], x);
    assert [] + [x] == [x];
  }

  /** Byte 5 is the checksum of the plain header and the plain body. */
  lemma ChecksumOnWire(t: Table, dir: Direction, b: seq<Byte>)
    requires Packet(b)
    ensures |b| >= 6 && Encodable(b)
    ensures Encode(t, dir, b)[5] == Register(0, HeaderBytes(dir, b[0], b[1], b[2], b[3]) + b[6..])
  {
    hide Packet, Encode, OutHead, HeaderBytes, Sealed, Bytes, Crc, Stream, Xor;
    PacketLength(b);
    EncodeIsSealed(t, dir, b);
    SealedParts(t, OutHead(dir, b), b[6..]);
    OutHeadBytes(dir, b);
    CrcGoesOn(0, Bytes(OutHead(dir, b)), b[6..]);
    CrcIsRegister(0, HeaderBytes(dir, b[0], b[1], b[2], b[3]) + b[6..]);
  }

  // ---- The body ------------------------------------------------------------------------------------

  lemma OutHeadKeys(dir: Direction, b: seq<Byte>)
    requires |b| >= 4
    ensures Nat4(HeadAdd(OutHead(dir, b))) == 4 && Nat11(HeadTable(OutHead(dir, b))) == 0x100
  {
    hide HeadWord, HeadAdd, HeadTable, Field11;
    HeadRoundTrip(Field11(b[0], b[1]), Field11(b[2], b[3]), TABLE_VALUE, ADD_VALUE, if dir.Server? then 4 else 0);
  }

  /** Byte i of the body is masked with entry (0x100 + i) mod 0x800 of row (4 + i) mod 16. */
  lemma BodyOnWire(t: Table, dir: Direction, b: seq<Byte>, i: nat)
    requires Packet(b) && 6 <= i < |b|
    ensures Encodable(b)
    ensures Encode(t, dir, b)[i] == b[i] ^ Entry(t, (4 + i) % 16, (0x100 + i) % 0x800)
  {
    hide Packet, Encode, OutHead, Bytes, Crc, HeadChecksum, HeadAdd, HeadTable, Nat4, Nat11;
    PacketLength(b);
    EncodeIsSealed(t, dir, b);
    OutHeadKeys(dir, b);
    var head := OutHead(dir, b);
    var sealed := Sealed(t, head, b[6..]);
    assert Encode(t, dir, b)[i] == sealed[i - 5];
    assert sealed[i - 5] == Xor(b[6..], Stream(t, head, |b| - 6))[i - 6];
  }

  /** Row and column at which a received header starts. */
  function FirstRow(w: bv40): (r: nat)
    ensures r < 16
  {
    ((w >> 33) & 0xF) as nat
  }

  function FirstColumn(w: bv40): (c: nat)
    ensures c < 0x800
  {
    ((w >> 22) & 0x7FF) as nat
  }

  lemma KeysOf(w: bv40)
    ensures Nat4(HeadAdd(w)) == FirstRow(w) && Nat11(HeadTable(w)) == FirstColumn(w)
  {}

  lemma UnmaskedByte(t: Table, w: bv40, body: seq<Byte>, i: nat)
    requires 6 <= i < 6 + |body|
    ensures Xor(body, Stream(t, w, |body|))[i - 6]
         == body[i - 6] ^ Entry(t, (FirstRow(w) + i) % 16, (FirstColumn(w) + i) % 0x800)
  {
    hide FirstRow, FirstColumn, HeadAdd, HeadTable, Nat4, Nat11;
    KeysOf(w);
    assert Stream(t, w, |body|)[i - 6] == BodyKey(t, w, i);
  }

  lemma PartsAt(start: seq<Byte>, middle: seq<Byte>, body: seq<Byte>, rest: seq<Byte>, i: nat)
    requires |start| == 4 && |middle| == 2 && i < 6 + |body| + |rest|
    ensures (start + (middle + body + rest))[i]
         == if i < 4 then start[i] else if i < 6 then middle[i - 4]
            else if i < 6 + |body| then body[i - 6] else rest[i - 6 - |body|]
  {}

  /** Body decoding unmasks with the key of the header it finds and leaves everything else but size and type. */
  lemma BodyFromWire(t: Table, dir: Direction, b: seq<Byte>, i: nat)
    requires Decodable(dir, b) && i < |b|
    ensures var w, d := WordOf(b), DecodeBody(t, dir, b);
      var n := BodyEnd(Nat16(BodyLength(dir, w)));
      && (6 <= i < n ==> d[i] == b[i] ^ Entry(t, (FirstRow(w) + i) % 16, (FirstColumn(w) + i) % 0x800))
      && (i == 4 || i == 5 || i >= n ==> d[i] == b[i])
      && (i < 4 && !Accepts(t, dir, b) ==> d[i] == b[i])
  {
    hide WordOf, BodyLength, HeadChecksum, Crc, Accepts, PlainHead, HeadCommand, Nat16, FirstRow, FirstColumn;
    hide Entry, Xor, Stream, DecodeBody, PlainBody;
    var w := WordOf(b);
    var n := BodyEnd(Nat16(BodyLength(dir, w)));
    DecodeBodyIs(t, dir, b, w, n);
    var start := if Accepts(t, dir, b) then PlainHead(BodyLength(dir, w), HeadCommand(w)) else b[..4];
    PartsAt(start, b[4..6], PlainBody(t, dir, b), b[n..], i);
    if 6 <= i < n {
      UnmaskedByte(t, w, b[6..n], i);
    }
  }
}
