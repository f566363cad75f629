/**
  The stateful side of the cipher: the generator object, the codec that fills its tables in
  place, and encoding and decoding of a byte buffer in place. Every method is proved against
  the functions of KeySchedule and Cipher.
 */
module PacketCodec {
  import opened Checksum
  import opened HeaderLayout
  import opened KeySchedule
  import opened Cipher

  class RoseRandomNumber {
    var kind: Kind
    var vcSeed: Word
    var bcSeed: Word
    var acSeed: Word
    var mySeed: Word

    constructor (seed: Word)
      ensures State() == Started(seed)
    {
      kind, vcSeed, bcSeed, acSeed, mySeed := BC, seed, seed, seed, seed;
    }

    function State(): Generator
      reads this
    {
      Generator(kind, bcSeed, acSeed, mySeed, vcSeed)
    }

    method SetType(k: Kind)
      modifies this
      ensures State() == old(State()).(kind := k)
    {
      kind := k;
    }

    /** One step of the selected generator; the other three seeds stay. */
    method Get() returns (value: int)
      modifies this
      ensures State() == old(State().Moved(Advance(kind, State().Current())))
      ensures value == Output(kind, State().Current())
    {
      match kind
      case BC => bcSeed := Advance(BC, bcSeed); value := Output(BC, bcSeed);
      case AC => acSeed := Advance(AC, acSeed); value := Output(AC, acSeed);
      case MY => mySeed := Advance(MY, mySeed); value := Output(MY, mySeed);
      case VC => vcSeed := Advance(VC, vcSeed); value := Output(VC, vcSeed);
    }
  }

  class PacketCodec {
    var cr: RoseRandomNumber
    const rt: array2<int>
    const ri: array<int>

    ghost predicate Sized() {
      rt.Length0 == ROWS && rt.Length1 == COLUMNS && ri.Length == INDICES
    }

    /** The first j entries of row i. */
    ghost function Row(i: nat, j: nat): (r: seq<int>)
      requires Sized() && i < ROWS && j <= COLUMNS
      reads rt
      ensures |r| == j && forall c | 0 <= c < j :: r[c] == rt[i, c]
    {
      seq(j, c requires 0 <= c < j reads rt => rt[i, c])
    }

    /** The first n rows. */
    ghost function RowsUpTo(n: nat): (r: seq<seq<int>>)
      requires Sized() && n <= ROWS
      reads rt
      ensures |r| == n && forall i | 0 <= i < n :: r[i] == Row(i, COLUMNS)
    {
      seq(n, i requires 0 <= i < n reads rt => Row(i, COLUMNS))
    }

    /** The codec holds the tables of the given seed. */
    ghost predicate Keyed(seed: Word)
      reads rt, ri
    {
      Sized() && RowsUpTo(ROWS) == KeyTable(seed) && ri[..] == IndexTable(seed)
    }

    constructor (seed: Word)
      ensures Keyed(seed) && fresh(cr) && fresh(rt) && fresh(ri)
    {
      cr := new RoseRandomNumber(0);
      rt := new int[ROWS, COLUMNS];
      ri := new int[INDICES];
      new;
      ChangeSeed(seed);
    }

    /** Is the value in an earlier row (all but its last column) or in the first entries of this row? */
    method FindDupTable(value: int, table: nat, range: nat) returns (found: bool)
      requires Sized() && table < ROWS && range <= COLUMNS
      ensures found <==>
        (value in Row(table, range) || exists i, j | 0 <= i < table && 0 <= j < 0x7FF :: rt[i, j] == value)
    {
      for i := 0 to table
        invariant forall k, j | 0 <= k < i && 0 <= j < 0x7FF :: rt[k, j] != value
      {
        for j := 0 to 0x7FF
          invariant forall c | 0 <= c < j :: rt[i, c] != value
        {
          if rt[i, j] == value { return true; }
        }
      }
      for c := 0 to range
        invariant value !in Row(table, c)
      {
        if rt[table, c] == value {
          assert Row(table, range)[c] == value;
          return true;
        }
      }
      found := false;
    }

    method FindDupIndex(value: int, range: nat) returns (found: bool)
      requires Sized() && range <= INDICES
      ensures found <==> value in ri[..range]
    {
      for i := 0 to range
        invariant value !in ri[..i]
      {
        if ri[i] == value { return true; }
      }
      found := false;
    }

    /** The do-while loop for one table entry. */
    method FillEntry(i: nat, j: nat)
      requires Sized() && i < ROWS && j < COLUMNS
      modifies cr, rt
      ensures cr == old(cr)
      ensures (cr.State().Current(), rt[i, j]) ==
        old(Draw(Whole, cr.kind, cr.State().Current(), Row(0, j)))
      ensures cr.State() == old(cr.State()).Moved(cr.State().Current())
      ensures forall k, c | 0 <= k < ROWS && 0 <= c < COLUMNS && (k != i || c != j) :: rt[k, c] == old(rt[k, c])
    {
      hide Draw, Advance, Output;
      ghost var used, g := Row(0, j), cr.State();
      var v := cr.Get();
      rt[i, j] := v;
      var again := FindDupTable(rt[i, j], 0, j);
      assert Row(0, j) == used;
      DrawUnfolds(Whole, g.kind, g.Current(), used);
      while again
        invariant cr.kind == g.kind && cr.State() == g.Moved(cr.State().Current())
        invariant rt[i, j] == Output(g.kind, cr.State().Current())
        invariant Row(0, j) == used
        invariant again <==> rt[i, j] in used
        invariant Draw(Whole, g.kind, g.Current(), used) ==
          if again then Draw(Whole, g.kind, cr.State().Current(), used) else (cr.State().Current(), rt[i, j])
        invariant forall k, c | 0 <= k < ROWS && 0 <= c < COLUMNS && (k != i || c != j) :: rt[k, c] == old(rt[k, c])
        decreases if again then 1 + Distance(Whole, g.kind, cr.State().Current(), used) else 0
      {
        ghost var s := cr.State().Current();
        DrawUnfolds(Whole, g.kind, s, used);
        v := cr.Get();
        rt[i, j] := v;
        again := FindDupTable(rt[i, j], 0, j);
        assert Row(0, j) == used;
        if again {
          RetryShortensDistance(Whole, g.kind, s, used);
        }
      }
    }

    lemma DrawUnfolds(reader: Reader, kind: Kind, s: Word, used: seq<int>)
      requires |used| < COLUMNS
      ensures var s' := Advance(kind, s);
        var v := Show(reader, kind, s');
        Draw(reader, kind, s, used) == if v in used then Draw(reader, kind, s', used) else (s', v)
    {
      hide Advance, Show;
    }

    lemma FillRowUnfolds(g: Generator, rows: seq<seq<int>>, row: seq<int>, s: Word, v: int)
      requires Rows(rows) && |row| < COLUMNS
      requires (s, v) == Draw(Whole, g.kind, g.Current(), Compared(rows, row))
      ensures FillRow(g, rows, row) == FillRow(g.Moved(s), rows, row + [v])
    {
      hide Draw, Compared;
    }

    method FillOneRow(i: nat)
      requires Sized() && i < ROWS
      modifies cr, rt
      ensures cr == old(cr)
      ensures (cr.State(), Row(i, COLUMNS)) == old(FillRow(cr.State(), RowsUpTo(i), []))
      ensures RowsUpTo(i) == old(RowsUpTo(i))
    {
      hide FillRow, Draw;
      ghost var rows, g := RowsUpTo(i), cr.State();
      for j := 0 to COLUMNS
        invariant cr == old(cr) && RowsUpTo(i) == rows
        invariant FillRow(cr.State(), rows, Row(i, j)) == FillRow(g, rows, [])
      {
        ghost var before, row := cr.State(), Row(i, j);
        assert Compared(rows, row) == Row(0, j);
        FillEntry(i, j);
        FillRowUnfolds(before, rows, row, cr.State().Current(), rt[i, j]);
        assert Row(i, j + 1) == row + [rt[i, j]];
        forall k | 0 <= k < i
          ensures RowsUpTo(i)[k] == rows[k]
        {
          assert Row(k, COLUMNS) == old(Row(k, COLUMNS));
        }
      }
      FillRowEnds(cr.State(), rows, Row(i, COLUMNS));
    }

    lemma FillRowEnds(g: Generator, rows: seq<seq<int>>, row: seq<int>)
      requires Rows(rows) && |row| == COLUMNS
      ensures FillRow(g, rows, row) == (g, row)
    {}

    lemma FillTableUnfolds(g: Generator, rows: seq<seq<int>>)
      requires Rows(rows) && |rows| < ROWS
      ensures var (g', row) := FillRow(g.(kind := KindOfRow(|rows|)), rows, []);
        FillTable(g, rows) == FillTable(g', rows + [row])
    {
      hide FillRow;
    }

    lemma FillTableEnds(g: Generator, rows: seq<seq<int>>)
      requires Rows(rows) && |rows| == ROWS
      ensures FillTable(g, rows) == (g, rows)
    {}

    method FillIndexEntry(i: nat)
      requires Sized() && i < INDICES && cr.kind == AC
      modifies cr, ri
      ensures cr == old(cr) && cr.kind == AC
      ensures (cr.acSeed, ri[i]) == old(Draw(Low11, AC, cr.acSeed, ri[..i]))
      ensures ri[..i] == old(ri[..i])
    {
      hide Draw, Advance, Output;
      ghost var used, s0 := ri[..i], cr.acSeed;
      var v := cr.Get();
      ri[i] := v % 0x800;
      var again := FindDupIndex(ri[i], i);
      DrawUnfolds(Low11, AC, s0, used);
      while again
        invariant cr.kind == AC && ri[..i] == used
        invariant ri[i] == Show(Low11, AC, cr.acSeed)
        invariant again <==> ri[i] in used
        invariant Draw(Low11, AC, s0, used) == if again then Draw(Low11, AC, cr.acSeed, used) else (cr.acSeed, ri[i])
        decreases if again then 1 + Distance(Low11, AC, cr.acSeed, used) else 0
      {
        ghost var s := cr.acSeed;
        DrawUnfolds(Low11, AC, s, used);
        v := cr.Get();
        ri[i] := v % 0x800;
        again := FindDupIndex(ri[i], i);
        if again {
          RetryShortensDistance(Low11, AC, s, used);
        }
      }
    }

    lemma FillIndexUnfolds(s: Word, acc: seq<int>, s': Word, v: int)
      requires |acc| < INDICES && (s', v) == Draw(Low11, AC, s, acc)
      ensures FillIndex(s, acc) == FillIndex(s', acc + [v])
    {
      hide Draw;
    }

    /** Rebuilds both tables; it ends for every seed, and what it builds depends on the seed only. */
    method ChangeSeed(seed: Word)
      requires Sized()
      modifies this, rt, ri
      ensures Keyed(seed) && fresh(cr)
    {
      hide FillTable, FillRow, FillIndex, Draw;
      cr := new RoseRandomNumber(seed);
      ghost var g := cr.State();
      ghost var mine := cr;
      assert RowsUpTo(0) == [];
      for i := 0 to ROWS
        invariant cr == mine
        invariant FillTable(cr.State(), RowsUpTo(i)) == FillTable(g, [])
      {
        ghost var rows := RowsUpTo(i);
        FillTableUnfolds(cr.State(), rows);
        cr.SetType(KindOfRow(i));
        FillOneRow(i);
        assert RowsUpTo(i + 1) == rows + [Row(i, COLUMNS)];
      }
      FillTableEnds(cr.State(), RowsUpTo(ROWS));
      ghost var keys := RowsUpTo(ROWS);

      cr.SetType(AC);
      ghost var s := cr.acSeed;
      for i := 0 to INDICES
        invariant cr == mine && cr.kind == AC
        invariant RowsUpTo(ROWS) == keys
        invariant FillIndex(cr.acSeed, ri[..i]) == FillIndex(s, [])
      {
        ghost var acc, before := ri[..i], cr.acSeed;
        FillIndexEntry(i);
        FillIndexUnfolds(before, acc, cr.acSeed, ri[i]);
        assert ri[..i + 1] == acc + [ri[i]];
      }
      FillIndexEnds(cr.acSeed, ri[..]);
      assert ri[..INDICES] == ri[..];
    }

    lemma FillIndexEnds(s: Word, acc: seq<int>)
      requires |acc| == INDICES
      ensures FillIndex(s, acc) == acc
    {}

    // ---- Packets, in place ----------------------------------------------------------------

    ghost function Keys(): Table
      requires Sized()
      reads rt
    {
      RowsUpTo(ROWS)
    }

    /** Writes the five header bytes. */
    method StoreHead(buffer: array<Byte>, w: bv40)
      requires buffer.Length >= 5
      modifies buffer
      ensures buffer[..] == Bytes(w) + old(buffer[5..])
    {
      hide HeadByte;
      for i := 0 to 5
        invariant buffer[..i] == Bytes(w)[..i] && buffer[5..] == old(buffer[5..])
      {
        buffer[i] := HeadByte(w, i);
      }
      assert buffer[..] == buffer[..5] + buffer[5..];
    }

    /** Masks the five header bytes with one column of the key table. */
    method MaskHead(buffer: array<Byte>, column: nat)
      requires Sized() && column < COLUMNS && buffer.Length >= 5
      modifies buffer
      ensures buffer[5..] == old(buffer[5..])
      ensures WordOf(buffer[..]) == Plus40(WordOf(old(buffer[..])), KeyWord(Keys(), column))
    {
      hide Plus, LowByte, Join, Plus40;
      for i := 0 to 5
        invariant buffer[5..] == old(buffer[5..])
        invariant forall k | 0 <= k < i :: buffer[k] == Plus(old(buffer[k]), Key(Keys(), k, column))
        invariant forall k | i <= k < 5 :: buffer[k] == old(buffer[k])
      {
        buffer[i] := Plus(buffer[i], LowByte(rt[i, column]));
      }
      ghost var b := old(buffer[..]);
      JoinOfMasked(b[0], b[1], b[2], b[3], b[4], Key(Keys(), 0, column), Key(Keys(), 1, column),
        Key(Keys(), 2, column), Key(Keys(), 3, column), Key(Keys(), 4, column));
    }

    lemma JoinOfMasked(b0: Byte, b1: Byte, b2: Byte, b3: Byte, b4: Byte,
                       k0: Byte, k1: Byte, k2: Byte, k3: Byte, k4: Byte)
      ensures Join(Plus(b0, k0), Plus(b1, k1), Plus(b2, k2), Plus(b3, k3), Plus(b4, k4))
           == Plus40(Join(b0, b1, b2, b3, b4), Join(k0, k1, k2, k3, k4))
    {}

    method ChecksumHead(head: bv40) returns (checksum: Byte)
      ensures checksum == HeadChecksum(head)
    {
      hide HeadByte, CrcTable, Plus;
      checksum := 0;
      for i := 0 to 5
        invariant checksum == Crc(0, Bytes(head)[..i])
      {
        CrcAppend(0, Bytes(head)[..i], HeadByte(head, i));
        assert Bytes(head)[..i + 1] == Bytes(head)[..i] + [HeadByte(head, i)];
        checksum := CrcTable(Plus(HeadByte(head, i), checksum));
      }
      assert Bytes(head)[..5] == Bytes(head);
    }

    method MaskByte(buffer: array<Byte>, head: bv40, i: nat)
      requires Sized() && i < buffer.Length
      modifies buffer
      ensures buffer[..] == old(buffer[..])[i := Plus(old(buffer[i]), BodyKey(Keys(), head, i))]
    {
      hide Plus, LowByte, HeadAdd, HeadTable, Nat11, Nat4;
      var row, column := (Nat4(HeadAdd(head)) + i) % ROWS, (Nat11(HeadTable(head)) + i) % COLUMNS;
      buffer[i] := Plus(buffer[i], LowByte(rt[row, column]));
    }

    /** Checksums the plain body and masks it, byte by byte. */
    method SealBody(buffer: array<Byte>, head: bv40, size: nat, start: Byte) returns (checksum: Byte)
      requires Sized() && buffer.Length >= BodyEnd(size)
      modifies buffer
      ensures var n := BodyEnd(size);
        && checksum == Crc(start, old(buffer[6..n]))
        && buffer[..] == old(buffer[..6]) + Xor(old(buffer[6..n]), Stream(Keys(), head, n - 6)) + old(buffer[n..])
    {
      hide CrcTable, Plus, BodyKey, Crc, Xor, Stream;
      checksum := start;
      CrcEmpty(start);
      assert buffer[6..6] == [];
      var i := 6;
      ghost var b, n := buffer[..], BodyEnd(size);
      while i < size
        invariant 6 <= i <= n
        invariant forall k | 0 <= k < buffer.Length && !(6 <= k < i) :: buffer[k] == b[k]
        invariant forall k | 6 <= k < i :: buffer[k] == Plus(b[k], BodyKey(Keys(), head, k))
        invariant checksum == Crc(start, b[6..i])
      {
        CrcAppend(start, b[6..i], b[i]);
        assert b[6..i + 1] == b[6..i] + [b[i]];
        checksum := CrcTable(Plus(buffer[i], checksum));
        MaskByte(buffer, head, i);
        i := i + 1;
      }
      assert i == n;
      MaskedParts(Keys(), head, b, buffer[..], n);
    }

    lemma MaskedParts(t: Table, head: bv40, b: seq<Byte>, c: seq<Byte>, n: nat)
      requires 6 <= n <= |b| == |c|
      requires forall k | 0 <= k < |b| && !(6 <= k < n) :: c[k] == b[k]
      requires forall k | 6 <= k < n :: c[k] == Plus(b[k], BodyKey(t, head, k))
      ensures c == b[..6] + Xor(b[6..n], Stream(t, head, n - 6)) + b[n..]
    {
      hide Plus, BodyKey;
    }

    /** Unmasks the body and checksums what it finds, byte by byte. */
    method OpenBody(buffer: array<Byte>, head: bv40, size: nat, start: Byte) returns (checksum: Byte)
      requires Sized() && buffer.Length >= BodyEnd(size)
      modifies buffer
      ensures var n := BodyEnd(size);
        var body := Xor(old(buffer[6..n]), Stream(Keys(), head, n - 6));
        && checksum == Crc(start, body)
        && buffer[..] == old(buffer[..6]) + body + old(buffer[n..])
    {
      hide CrcTable, Plus, BodyKey, Crc, Xor, Stream;
      checksum := start;
      CrcEmpty(start);
      assert buffer[6..6] == [];
      var i := 6;
      ghost var b, n := buffer[..], BodyEnd(size);
      while i < size
        invariant 6 <= i <= n
        invariant forall k | 0 <= k < buffer.Length && !(6 <= k < i) :: buffer[k] == b[k]
        invariant forall k | 6 <= k < i :: buffer[k] == Plus(b[k], BodyKey(Keys(), head, k))
        invariant checksum == Crc(start, buffer[6..i])
      {
        ghost var done := buffer[6..i];
        MaskByte(buffer, head, i);
        assert buffer[6..i + 1] == done + [buffer[i]];
        CrcAppend(start, done, buffer[i]);
        checksum := CrcTable(Plus(buffer[i], checksum));
        i := i + 1;
      }
      MaskedParts(Keys(), head, b, buffer[..], n);
      MiddlePart(b[..6], Xor(b[6..n], Stream(Keys(), head, n - 6)), b[n..]);
    }

    lemma MiddlePart(start: seq<Byte>, body: seq<Byte>, rest: seq<Byte>)
      ensures (start + body + rest)[|start|..|start| + |body|] == body
    {}

    /** FlipHeadMain into the buffer, then the mask. */
    method MaskNewHead(dir: Direction, buffer: array<Byte>, head: bv40)
      requires Sized() && buffer.Length >= 5 && head == OutHead(dir, buffer[..])
      modifies buffer
      ensures buffer[5..] == old(buffer[5..])
      ensures WordOf(buffer[..]) == Plus40(ClearHead(dir, old(buffer[..])), KeyWord(Keys(), 0x100))
    {
      hide OutHead, WireWord, WireView, FlipMain, PlainView, KeyWord, Plus40, Bytes, Join;
      ghost var b := buffer[..];
      var w := Join(buffer[0], buffer[1], buffer[2], buffer[3], buffer[4]);
      var clear := WireWord(dir, FlipMain(WireView(dir, w), PlainView(head)));
      StoreHead(buffer, clear);
      JoinOfBytes(clear, b[5..]);
      MaskHead(buffer, 0x100);
    }

    /** FlipHeadFinal into the buffer. */
    method PublishTableValue(dir: Direction, buffer: array<Byte>, head: bv40)
      requires buffer.Length >= 5
      modifies buffer
      ensures buffer[..] == Bytes(WireWord(dir, FlipFinal(WireView(dir, WordOf(old(buffer[..]))), PlainView(head))))
                              + old(buffer[5..])
    {
      hide WireWord, WireView, FlipFinal, PlainView, Bytes, Join;
      var w := Join(buffer[0], buffer[1], buffer[2], buffer[3], buffer[4]);
      StoreHead(buffer, WireWord(dir, FlipFinal(WireView(dir, w), PlainView(head))));
    }

    /** The checksum over header and body goes into byte 5. */
    method SealPacket(buffer: array<Byte>, head: bv40, size: nat)
      requires Sized() && buffer.Length >= BodyEnd(size)
      modifies buffer
      ensures var n := BodyEnd(size);
        && buffer[..5] == old(buffer[..5])
        && buffer[5..] == Sealed(Keys(), head, old(buffer[6..n])) + old(buffer[n..])
    {
      hide Crc, Xor, Stream, HeadChecksum;
      var checksum := ChecksumHead(head);
      ghost var b, n := buffer[..], BodyEnd(size);
      checksum := SealBody(buffer, head, size, checksum);
      buffer[5] := checksum;
      CheckInPlace(b[..6], Xor(b[6..n], Stream(Keys(), head, n - 6)), b[n..], checksum);
      assert buffer[..] == (b[..6] + Xor(b[6..n], Stream(Keys(), head, n - 6)) + b[n..])[5 := checksum];
    }

    lemma CheckInPlace(start: seq<Byte>, body: seq<Byte>, rest: seq<Byte>, check: Byte)
      requires |start| == 6
      ensures (start + body + rest)[5 := check][..5] == start[..5]
      ensures (start + body + rest)[5 := check][5..] == [check] + body + rest
    {}

    lemma EncodeIs(t: Table, dir: Direction, b: seq<Byte>, n: nat)
      requires Encodable(b) && n == BodyEnd(PlainSize(b))
      ensures Encode(t, dir, b) == Bytes(EncodedHead(t, dir, b)) + (Sealed(t, OutHead(dir, b), b[6..n]) + b[n..])
    {
      hide EncodedHead, OutHead, Bytes, Sealed, Field11, Nat11;
    }

    lemma SameTail(b: seq<Byte>, c: seq<Byte>, n: nat)
      requires |b| == |c| && 6 <= n <= |b| && b[5..] == c[5..]
      ensures b[6..n] == c[6..n] && b[n..] == c[n..]
    {
      forall i | 5 <= i < |b|
        ensures b[i] == c[i]
      {
        assert b[5..][i - 5] == c[5..][i - 5];
      }
    }

    lemma EncodableLength(b: seq<Byte>)
      requires Encodable(b)
      ensures |b| >= 6 && |b| >= BodyEnd(PlainSize(b)) && PlainSize(b) == Nat11(Field11(b[0], b[1]))
    {
      hide Field11, Nat11;
    }

    lemma DecodableSize(dir: Direction, b: seq<Byte>)
      requires Decodable(dir, b)
      ensures |b| >= 6
    {
      hide WordOf, BodyLength, Nat16;
    }

    lemma DecodableLength(dir: Direction, b: seq<Byte>, head: bv40)
      requires Decodable(dir, b) && head == Join(b[0], b[1], b[2], b[3], b[4])
      ensures |b| >= BodyEnd(Nat16(BodyLength(dir, head))) && head == WordOf(b)
    {
      hide Join, BodyLength, Nat16;
    }

    /** encodeServerPacket and encodeClientPacket: the same steps with the other layout. */
    method EncodePacket(dir: Direction, buffer: array<Byte>)
      requires Sized() && Encodable(buffer[..])
      modifies buffer
      ensures buffer[..] == Encode(Keys(), dir, old(buffer[..]))
    {
      hide *;
      ghost var b := buffer[..];
      EncodableLength(b);
      var size := Field11(buffer[0], buffer[1]);
      var command := Field11(buffer[2], buffer[3]);
      var head := HeadWord(size, command, TABLE_VALUE, ADD_VALUE, if dir.Server? then 4 else 0);
      OutHeadIs(dir, b, size, command);
      ghost var n := BodyEnd(Nat11(size));
      MaskNewHead(dir, buffer, head);
      ghost var masked := buffer[..];
      SameTail(masked, b, n);
      SealPacket(buffer, head, Nat11(size));
      WordOfPrefix(buffer[..], masked);
      PublishTableValue(dir, buffer, head);
      EncodeIs(Keys(), dir, b, n);
      EncodedHeadIs(Keys(), dir, b, head, WordOf(masked));
    }

    lemma EncodedHeadIs(t: Table, dir: Direction, b: seq<Byte>, head: bv40, masked: bv40)
      requires |b| >= 5 && head == OutHead(dir, b) && masked == Plus40(ClearHead(dir, b), KeyWord(t, 0x100))
      ensures EncodedHead(t, dir, b) == WireWord(dir, FlipFinal(WireView(dir, masked), PlainView(head)))
    {
      hide OutHead, ClearHead, KeyWord, Plus40, WireWord, WireView, FlipFinal, PlainView;
    }

    /** decodeServerHeader and decodeClientHeader. */
    method DecodePacketHeader(dir: Direction, buffer: array<Byte>) returns (size: nat)
      requires Sized() && buffer.Length >= 5
      modifies buffer
      ensures (buffer[..], size) == DecodeHeader(Keys(), dir, old(buffer[..]))
    {
      hide WireView, FlipMain, FlipFinal, PlainView, PlainWord, KeyWord, Plus40, Bytes, Join, HeadTable;
      hide HeadSize, Nat11;
      var w := Join(buffer[0], buffer[1], buffer[2], buffer[3], buffer[4]);
      var start := FlipFinal(PlainView(0), WireView(dir, w));
      MaskHead(buffer, Column(PlainWord(start)));
      w := Join(buffer[0], buffer[1], buffer[2], buffer[3], buffer[4]);
      var head := PlainWord(FlipMain(start, WireView(dir, w)));
      StoreHead(buffer, head);
      size := Nat11(HeadSize(head));
    }

    method RestoreHead(buffer: array<Byte>, length: bv16, command: bv11)
      requires buffer.Length >= 4
      modifies buffer
      ensures buffer[..] == PlainHead(length, command) + old(buffer[4..])
    {
      hide Low, High;
      var type_ := command as bv16;
      buffer[0], buffer[1], buffer[2], buffer[3] := Low(length), High(length), Low(type_), High(type_);
    }

    lemma FrontSplits(b: seq<Byte>, body: seq<Byte>, rest: seq<Byte>)
      requires |b| >= 6
      ensures b[..6] + body + rest == b[..4] + (b[4..6] + body + rest)
    {}

    /** decodeServerBody and decodeClientBody. */
    method DecodePacketBody(dir: Direction, buffer: array<Byte>) returns (ok: bool)
      requires Sized() && Decodable(dir, buffer[..])
      modifies buffer
      ensures ok == Accepts(Keys(), dir, old(buffer[..]))
      ensures buffer[..] == DecodeBody(Keys(), dir, old(buffer[..]))
    {
      hide *;
      ghost var b := buffer[..];
      DecodableSize(dir, b);
      var head := Join(buffer[0], buffer[1], buffer[2], buffer[3], buffer[4]);
      DecodableLength(dir, b, head);
      var length := BodyLength(dir, head);
      ghost var n := BodyEnd(Nat16(length));
      DecodeBodyIs(Keys(), dir, b, head, n);
      var start := ChecksumHead(head);
      var checksum := OpenBody(buffer, head, Nat16(length), start);
      ghost var body := PlainBody(Keys(), dir, b);
      FrontSplits(b, body, b[n..]);
      ok := checksum == buffer[5];
      if ok {
        RestoreHead(buffer, length, HeadCommand(head));
      }
    }
  }
}
