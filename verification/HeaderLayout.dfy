/**
  The five header bytes as one 40-bit little-endian word, and the three ways the source's
  bit-field structs cut it into the same fifteen fields. Bit fields are allocated from the
  lowest bit, as on the little-endian targets of the program.
 */
module HeaderLayout {
  import opened Checksum

  /** s: AddBufferLen, t: Command, r: AddTableValue, a: EncryptAddValue, e: EncryptValue. */
  datatype Fields = Fields(
    s1: bv3, s2: bv3, s3: bv3, s4: bv2,
    t1: bv3, t2: bv3, t3: bv3, t4: bv2,
    r1: bv3, r2: bv3, r3: bv3, r4: bv2,
    a1: bv2, a2: bv2, e1: bv3)

  /** Packets from the server and packets from the client use different permutations. */
  datatype Direction = Server | Client

  function ServerView(w: bv40): Fields {
    Fields(
      ((w >> 32) & 7) as bv3, (w & 7) as bv3, ((w >> 12) & 7) as bv3, ((w >> 28) & 3) as bv2,
      ((w >> 23) & 7) as bv3, ((w >> 18) & 7) as bv3, ((w >> 6) & 7) as bv3, ((w >> 38) & 3) as bv2,
      ((w >> 3) & 7) as bv3, ((w >> 35) & 7) as bv3, ((w >> 15) & 7) as bv3, ((w >> 21) & 3) as bv2,
      ((w >> 26) & 3) as bv2, ((w >> 30) & 3) as bv2, ((w >> 9) & 7) as bv3)
  }

  function ServerWord(f: Fields): bv40 {
    (f.s2 as bv40) | (f.r1 as bv40 << 3) | (f.t3 as bv40 << 6) | (f.e1 as bv40 << 9) |
    (f.s3 as bv40 << 12) | (f.r3 as bv40 << 15) | (f.t2 as bv40 << 18) | (f.r4 as bv40 << 21) |
    (f.t1 as bv40 << 23) | (f.a1 as bv40 << 26) | (f.s4 as bv40 << 28) | (f.a2 as bv40 << 30) |
    (f.s1 as bv40 << 32) | (f.r2 as bv40 << 35) | (f.t4 as bv40 << 38)
  }

  function ClientView(w: bv40): Fields {
    Fields(
      ((w >> 6) & 7) as bv3, ((w >> 18) & 7) as bv3, ((w >> 23) & 7) as bv3, ((w >> 38) & 3) as bv2,
      ((w >> 12) & 7) as bv3, (w & 7) as bv3, ((w >> 32) & 7) as bv3, ((w >> 28) & 3) as bv2,
      ((w >> 35) & 7) as bv3, ((w >> 3) & 7) as bv3, ((w >> 9) & 7) as bv3, ((w >> 26) & 3) as bv2,
      ((w >> 30) & 3) as bv2, ((w >> 21) & 3) as bv2, ((w >> 15) & 7) as bv3)
  }

  function ClientWord(f: Fields): bv40 {
    (f.t2 as bv40) | (f.r2 as bv40 << 3) | (f.s1 as bv40 << 6) | (f.r3 as bv40 << 9) |
    (f.t1 as bv40 << 12) | (f.e1 as bv40 << 15) | (f.s2 as bv40 << 18) | (f.a2 as bv40 << 21) |
    (f.s3 as bv40 << 23) | (f.r4 as bv40 << 26) | (f.t4 as bv40 << 28) | (f.a1 as bv40 << 30) |
    (f.t3 as bv40 << 32) | (f.r1 as bv40 << 35) | (f.s4 as bv40 << 38)
  }

  function PlainView(w: bv40): Fields {
    Fields(
      (w & 7) as bv3, ((w >> 3) & 7) as bv3, ((w >> 6) & 7) as bv3, ((w >> 9) & 3) as bv2,
      ((w >> 11) & 7) as bv3, ((w >> 14) & 7) as bv3, ((w >> 17) & 7) as bv3, ((w >> 20) & 3) as bv2,
      ((w >> 22) & 7) as bv3, ((w >> 25) & 7) as bv3, ((w >> 28) & 7) as bv3, ((w >> 31) & 3) as bv2,
      ((w >> 33) & 3) as bv2, ((w >> 35) & 3) as bv2, ((w >> 37) & 7) as bv3)
  }

  function PlainWord(f: Fields): bv40 {
    (f.s1 as bv40) | (f.s2 as bv40 << 3) | (f.s3 as bv40 << 6) | (f.s4 as bv40 << 9) |
    (f.t1 as bv40 << 11) | (f.t2 as bv40 << 14) | (f.t3 as bv40 << 17) | (f.t4 as bv40 << 20) |
    (f.r1 as bv40 << 22) | (f.r2 as bv40 << 25) | (f.r3 as bv40 << 28) | (f.r4 as bv40 << 31) |
    (f.a1 as bv40 << 33) | (f.a2 as bv40 << 35) | (f.e1 as bv40 << 37)
  }

  function WireView(dir: Direction, w: bv40): Fields {
    if dir.Server? then ServerView(w) else ClientView(w)
  }

  function WireWord(dir: Direction, f: Fields): bv40 {
    if dir.Server? then ServerWord(f) else ClientWord(f)
  }

  /** FlipHeadMain: every field but the table value is copied from b into a. */
  function FlipMain(a: Fields, b: Fields): Fields {
    b.(r1 := a.r1, r2 := a.r2, r3 := a.r3, r4 := a.r4)
  }

  /** FlipHeadFinal: only the table value is copied from b into a. */
  function FlipFinal(a: Fields, b: Fields): Fields {
    a.(r1 := b.r1, r2 := b.r2, r3 := b.r3, r4 := b.r4)
  }

  // ---- Bit fields as numbers, named so that proofs can hide the conversion --------------------

  function Nat4(v: bv4): (r: nat)
    ensures r < 0x10
  {
    v as nat
  }

  function Nat11(v: bv11): (r: nat)
    ensures r < 0x800
  {
    v as nat
  }

  function Nat16(v: bv16): (r: nat)
    ensures r < 0x1_0000
  {
    v as nat
  }

  // ---- The Head struct: the same word, cut into whole values ---------------------------------

  function HeadWord(size: bv11, command: bv11, table: bv11, add: bv4, value: bv3): bv40 {
    (size as bv40) | (command as bv40 << 11) | (table as bv40 << 22) | (add as bv40 << 33) | (value as bv40 << 37)
  }

  function HeadSize(w: bv40): bv11 { (w & 0x7FF) as bv11 }

  function HeadCommand(w: bv40): bv11 { ((w >> 11) & 0x7FF) as bv11 }

  function HeadTable(w: bv40): bv11 { ((w >> 22) & 0x7FF) as bv11 }

  function HeadAdd(w: bv40): bv4 { ((w >> 33) & 0xF) as bv4 }

  function HeadValue(w: bv40): bv3 { ((w >> 37) & 0x7) as bv3 }

  lemma HeadRoundTrip(size: bv11, command: bv11, table: bv11, add: bv4, value: bv3)
    ensures var w := HeadWord(size, command, table, add, value);
      HeadSize(w) == size && HeadCommand(w) == command && HeadTable(w) == table &&
      HeadAdd(w) == add && HeadValue(w) == value
  {}

  // ---- Each layout is a bijection --------------------------------------------------------------

  lemma PlainBijective(w: bv40, f: Fields)
    ensures PlainWord(PlainView(w)) == w && PlainView(PlainWord(f)) == f
  {}

  lemma ServerBijective(w: bv40, f: Fields)
    ensures ServerWord(ServerView(w)) == w && ServerView(ServerWord(f)) == f
  {}

  lemma ClientBijective(w: bv40, f: Fields)
    ensures ClientWord(ClientView(w)) == w && ClientView(ClientWord(f)) == f
  {}

  /** Both wire layouts lose nothing of the word and nothing of the fields. */
  lemma LayoutBijective(dir: Direction, w: bv40, f: Fields)
    ensures WireWord(dir, WireView(dir, w)) == w && WireView(dir, WireWord(dir, f)) == f
  {
    hide ServerView, ServerWord, ClientView, ClientWord;
    ServerBijective(w, f);
    ClientBijective(w, f);
  }

  /** The table value of a header depends on its r fields only. */
  lemma TableFromFields(f: Fields, g: Fields)
    requires FlipFinal(f, g) == f
    ensures HeadTable(PlainWord(f)) == HeadTable(PlainWord(g))
  {}

  // The bits outside the table value.
  const SERVER_MAIN: bv40 := 0xC7FF9C7FC7
  const CLIENT_MAIN: bv40 := 0xC7F3FFF1C7

  function Masked(w: bv40, mask: bv40): bv40 {
    w & mask
  }

  function Plus40(w: bv40, key: bv40): bv40 {
    w ^ key
  }

  lemma MaskCancels(w: bv40, key: bv40, p: bv40, mask: bv40)
    requires Masked(p, mask) == Masked(Plus40(w, key), mask)
    ensures Masked(Plus40(p, key), mask) == Masked(w, mask)
  {
    hide Masked, Plus40;
    MaskedPlus(p, key, mask);
    MaskedPlus(w, key, mask);
    PlusTwice(Masked(w, mask), Masked(key, mask));
  }

  lemma MaskDistributes(a: bv40, b: bv40, mask: bv40)
    ensures (a ^ b) & mask == (a & mask) ^ (b & mask)
  {}

  lemma MaskedIs(w: bv40, mask: bv40)
    ensures Masked(w, mask) == w & mask
  {}

  lemma MaskedSum(a: bv40, b: bv40, mask: bv40)
    ensures Masked(Plus40(a, b), mask) == Plus40(a & mask, b & mask)
  {
    hide Masked;
    MaskedIs(a ^ b, mask);
    MaskDistributes(a, b, mask);
  }

  lemma MaskedPlus(a: bv40, b: bv40, mask: bv40)
    ensures Masked(Plus40(a, b), mask) == Plus40(Masked(a, mask), Masked(b, mask))
  {
    hide Plus40, Masked;
    MaskedSum(a, b, mask);
    MaskedIs(a, mask);
    MaskedIs(b, mask);
  }

  lemma PlusTwice(a: bv40, b: bv40)
    ensures Plus40(Plus40(a, b), b) == a
  {}

  lemma ServerFlipFinal(w: bv40, f: Fields)
    ensures Masked(ServerWord(FlipFinal(ServerView(w), f)), SERVER_MAIN) == Masked(w, SERVER_MAIN)
  {}

  lemma ServerFlipMain(w: bv40, f: Fields)
    ensures FlipMain(f, ServerView(w)) == FlipMain(f, ServerView(Masked(w, SERVER_MAIN)))
  {}

  lemma ServerKeyCancels(w: bv40, key: bv40, f: Fields)
    ensures FlipMain(f, ServerView(Plus40(ServerWord(FlipFinal(ServerView(Plus40(w, key)), f)), key)))
         == FlipMain(f, ServerView(w))
  {
    hide ServerView, ServerWord, FlipMain, FlipFinal, Masked, Plus40;
    var p := ServerWord(FlipFinal(ServerView(Plus40(w, key)), f));
    ServerFlipFinal(Plus40(w, key), f);
    MaskCancels(w, key, p, SERVER_MAIN);
    ServerFlipMain(Plus40(p, key), f);
    ServerFlipMain(w, f);
  }

  lemma ClientFlipFinal(w: bv40, f: Fields)
    ensures Masked(ClientWord(FlipFinal(ClientView(w), f)), CLIENT_MAIN) == Masked(w, CLIENT_MAIN)
  {}

  lemma ClientFlipMain(w: bv40, f: Fields)
    ensures FlipMain(f, ClientView(w)) == FlipMain(f, ClientView(Masked(w, CLIENT_MAIN)))
  {}

  lemma ClientKeyCancels(w: bv40, key: bv40, f: Fields)
    ensures FlipMain(f, ClientView(Plus40(ClientWord(FlipFinal(ClientView(Plus40(w, key)), f)), key)))
         == FlipMain(f, ClientView(w))
  {
    hide ClientView, ClientWord, FlipMain, FlipFinal, Masked, Plus40;
    var p := ClientWord(FlipFinal(ClientView(Plus40(w, key)), f));
    ClientFlipFinal(Plus40(w, key), f);
    MaskCancels(w, key, p, CLIENT_MAIN);
    ClientFlipMain(Plus40(p, key), f);
    ClientFlipMain(w, f);
  }

  /** Masking with the key, overwriting the table value and masking again keeps the rest. */
  lemma KeyCancels(dir: Direction, w: bv40, key: bv40, f: Fields)
    ensures FlipMain(f, WireView(dir, Plus40(WireWord(dir, FlipFinal(WireView(dir, Plus40(w, key)), f)), key)))
         == FlipMain(f, WireView(dir, w))
  {
    hide ServerView, ServerWord, ClientView, ClientWord, FlipMain, FlipFinal, Plus40;
    if dir.Server? {
      ServerKeyCancels(w, key, f);
    } else {
      ClientKeyCancels(w, key, f);
    }
  }

  // ---- Bytes -------------------------------------------------------------------------------------

  function HeadByte(w: bv40, i: nat): Byte
    requires i < 5
  {
    if i == 0 then (w & 0xFF) as bv8
    else if i == 1 then ((w >> 8) & 0xFF) as bv8
    else if i == 2 then ((w >> 16) & 0xFF) as bv8
    else if i == 3 then ((w >> 24) & 0xFF) as bv8
    else ((w >> 32) & 0xFF) as bv8
  }

  function Join(b0: Byte, b1: Byte, b2: Byte, b3: Byte, b4: Byte): bv40 {
    (b0 as bv40) | (b1 as bv40 << 8) | (b2 as bv40 << 16) | (b3 as bv40 << 24) | (b4 as bv40 << 32)
  }

  lemma JoinBytes(w: bv40)
    ensures Join(HeadByte(w, 0), HeadByte(w, 1), HeadByte(w, 2), HeadByte(w, 3), HeadByte(w, 4)) == w
  {}
}
