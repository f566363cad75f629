/**
  CRosePacket: a bounded buffer with a typed writer that drops what does not fit and a typed
  reader that returns zero beyond the end. Packets are described by schemas with numbers,
  zero-terminated strings and counted lists, so that one round-trip theorem covers them all.
  The host is little-endian.
 */
module RosePacket {

  const CAPACITY := 0x7FF
  const HEADER := 6

  type Byte = x: nat | x < 256

  function Pow256(n: nat): (r: nat)
    ensures r > 0
  {
    if n == 0 then 1 else 256 * Pow256(n - 1)
  }

  /** The bytes of a number, lowest first; what does not fit is cut off. */
  function Little(width: nat, v: nat): (r: seq<Byte>)
    ensures |r| == width
    decreases width
  {
    if width == 0 then [] else [v % 256] + Little(width - 1, v / 256)
  }

  function FromLittle(s: seq<Byte>): nat {
    if |s| == 0 then 0 else s[0] + 256 * FromLittle(s[1..])
  }

  lemma {:induction false} LittleReadsBack(width: nat, v: nat)
    requires v < Pow256(width)
    ensures FromLittle(Little(width, v)) == v
    decreases width
  {
    if width > 0 {
      LittleReadsBack(width - 1, v / 256);
      assert Little(width, v)[1..] == Little(width - 1, v / 256);
    }
  }

  lemma LittleStep(width: nat, v: nat)
    ensures Little(width + 1, v) == [v % 256] + Little(width, v / 256) && Little(0, v) == []
  {}

  /** The widths that fields have, written out: lowest byte first. */
  lemma LittleWords(v: nat)
    ensures Little(1, v) == [v % 256]
    ensures Little(2, v) == [v % 256, v / 256 % 256]
    ensures Little(4, v) == [v % 256, v / 256 % 256, v / 0x1_0000 % 256, v / 0x100_0000 % 256]
  {
    hide Little;
    var v1, v2, v3 := v / 256, v / 0x1_0000, v / 0x100_0000;
    assert v1 / 256 == v2 && v2 / 256 == v3;
    LittleStep(0, v);
    LittleStep(0, v1);
    LittleStep(0, v3);
    LittleStep(0, v3 / 256);
    LittleStep(0, v1 / 256);
    LittleStep(1, v);
    LittleStep(1, v2);
    LittleStep(2, v1);
    LittleStep(3, v);
  }

  // ---- Writing -------------------------------------------------------------------------------

  datatype Packet = Packet(buffer: seq<Byte>, current: nat, size: nat)

  datatype Scalar = Scalar(width: nat, v: nat)

  function Put(b: seq<Byte>, at: nat, s: seq<Byte>): (r: seq<Byte>)
    requires at + |s| <= |b|
    ensures |r| == |b|
  {
    b[..at] + s + b[at + |s|..]
  }

  /** writeNext: nothing happens when the value would reach the last byte of the buffer. */
  function Write(p: Packet, x: Scalar): (r: Packet)
    requires |p.buffer| == CAPACITY
    ensures |r.buffer| == CAPACITY
  {
    if p.current + x.width >= CAPACITY then p
    else
      var size := p.size + x.width;
      Packet(Put(Put(p.buffer, p.current, Little(x.width, x.v)), 0, Little(2, size)), p.current + x.width, size)
  }

  function WriteAll(p: Packet, xs: seq<Scalar>): (r: Packet)
    requires |p.buffer| == CAPACITY
    ensures |r.buffer| == CAPACITY
    decreases |xs|
  {
    if |xs| == 0 then p else WriteAll(Write(p, xs[0]), xs[1..])
  }

  function Encoding(xs: seq<Scalar>): seq<Byte> {
    if |xs| == 0 then [] else Little(xs[0].width, xs[0].v) + Encoding(xs[1..])
  }

  /** The writer's offset, its size and the size field always agree, and stay below the capacity. */
  predicate Valid(p: Packet) {
    && |p.buffer| == CAPACITY && 2 <= p.size == p.current < CAPACITY
    && p.buffer[..2] == Little(2, p.size)
  }

  /** What has been written after the size field. */
  function Content(p: Packet): seq<Byte>
    requires Valid(p)
  {
    p.buffer[2..p.size]
  }

  lemma PutTwice(b: seq<Byte>, at: nat, s: seq<Byte>, head: seq<Byte>)
    requires |head| == 2 <= at && at + |s| <= |b|
    ensures var r := Put(Put(b, at, s), 0, head);
      r[..2] == head && r[2..at + |s|] == b[2..at] + s && r[at + |s|..] == b[at + |s|..]
  {
    var once := Put(b, at, s);
    var r := Put(once, 0, head);
    assert forall i | 0 <= i < |b| :: once[i] == if at <= i < at + |s| then s[i - at] else b[i];
    assert forall i | 2 <= i < |b| :: r[i] == once[i];
  }

  lemma WriteAppends(p: Packet, x: Scalar)
    requires Valid(p)
    ensures Valid(Write(p, x))
    ensures p.size + x.width >= CAPACITY ==> Write(p, x) == p
    ensures p.size + x.width < CAPACITY ==>
      Write(p, x).size == p.size + x.width && Content(Write(p, x)) == Content(p) + Little(x.width, x.v)
  {
    hide Little, Put;
    if p.size + x.width < CAPACITY {
      PutTwice(p.buffer, p.current, Little(x.width, x.v), Little(2, p.size + x.width));
    }
  }

  /** A list that fits is appended byte for byte. */
  lemma {:induction false} WriteAllAppends(p: Packet, xs: seq<Scalar>)
    requires Valid(p) && p.size + |Encoding(xs)| < CAPACITY
    ensures Valid(WriteAll(p, xs)) && WriteAll(p, xs).size == p.size + |Encoding(xs)|
    ensures Content(WriteAll(p, xs)) == Content(p) + Encoding(xs)
    decreases |xs|
  {
    hide Little, Write, Content;
    if |xs| > 0 {
      WriteAppends(p, xs[0]);
      WriteAllAppends(Write(p, xs[0]), xs[1..]);
      assert Content(p) + Little(xs[0].width, xs[0].v) + Encoding(xs[1..])
          == Content(p) + (Little(xs[0].width, xs[0].v) + Encoding(xs[1..]));
    }
  }

  /** Any list at all, fitting or not, leaves what was written before in place. */
  lemma {:induction false} WriteAllKeeps(p: Packet, xs: seq<Scalar>)
    requires Valid(p)
    ensures Valid(WriteAll(p, xs)) && Content(p) <= Content(WriteAll(p, xs))
    decreases |xs|
  {
    hide Little, Write, Content;
    if |xs| > 0 {
      WriteAppends(p, xs[0]);
      WriteAllKeeps(Write(p, xs[0]), xs[1..]);
    }
  }

  /** The constructor: size, type and CRC into a buffer of any contents. */
  function Fresh(buffer: seq<Byte>, kind: nat, crc: nat): Packet
    requires |buffer| == CAPACITY
  {
    WriteAll(Packet(buffer, 0, 0), [Scalar(2, 0), Scalar(2, kind), Scalar(2, crc)])
  }

  lemma FirstWrite(buffer: seq<Byte>)
    requires |buffer| == CAPACITY
    ensures var p := Write(Packet(buffer, 0, 0), Scalar(2, 0)); Valid(p) && p.size == 2
  {
    hide Little;
  }

  lemma FreshIsValid(buffer: seq<Byte>, kind: nat, crc: nat)
    requires |buffer| == CAPACITY
    ensures var p := Fresh(buffer, kind, crc);
      Valid(p) && p.size == HEADER && Content(p) == Little(2, kind) + Little(2, crc)
  {
    hide Little, Write, Encoding;
    var p := Write(Packet(buffer, 0, 0), Scalar(2, 0));
    FirstWrite(buffer);
    var rest := [Scalar(2, kind), Scalar(2, crc)];
    assert [Scalar(2, 0), Scalar(2, kind), Scalar(2, crc)][1..] == rest;
    EncodingOfTwo(Scalar(2, kind), Scalar(2, crc));
    WriteAllAppends(p, rest);
    assert Content(p) == [];
  }

  lemma WriteAllThree(p: Packet, a: Scalar, b: Scalar, c: Scalar)
    requires |p.buffer| == CAPACITY
    ensures WriteAll(p, [a, b, c]) == Write(Write(Write(p, a), b), c)
  {
    hide Little, Write;
    assert [a, b, c][1..] == [b, c] && [b, c][1..] == [c] && [c][1..] == [];
    assert WriteAll(Write(Write(Write(p, a), b), c), []) == Write(Write(Write(p, a), b), c);
    assert WriteAll(Write(Write(p, a), b), [c]) == Write(Write(Write(p, a), b), c);
    assert WriteAll(Write(p, a), [b, c]) == Write(Write(Write(p, a), b), c);
  }

  lemma EncodingOfTwo(a: Scalar, b: Scalar)
    ensures Encoding([a, b]) == Little(a.width, a.v) + Little(b.width, b.v)
  {
    hide Little;
    assert [a, b][1..] == [b] && [b][1..] == [];
    assert Encoding([b]) == Little(b.width, b.v) + Encoding([]);
  }

  // ---- Schemas and values --------------------------------------------------------------------------

  /** What a packet holds, field after field. A counted list writes its length as one byte. */
  datatype Schema =
    | End
    | Number(width: nat, rest: Schema)
    | Text(rest: Schema)
    | Counted(row: Schema, rest: Schema)

  datatype Values =
    | Done
    | Num(v: nat, rest: Values)
    | Str(s: seq<Byte>, rest: Values)
    | Many(rows: Rows, rest: Values)

  datatype Rows = NoRows | Row(first: Values, more: Rows)

  function Length(rows: Rows): nat {
    match rows
    case NoRows => 0
    case Row(_, more) => 1 + Length(more)
  }

  /** The values have the shape of the schema and numbers fit their width, as the C++ types see to. */
  predicate Typed(schema: Schema, vals: Values)
    decreases schema, vals
  {
    match schema
    case End => vals.Done?
    case Number(width, rest) => vals.Num? && vals.v < Pow256(width) && Typed(rest, vals.rest)
    case Text(rest) => vals.Str? && Typed(rest, vals.rest)
    case Counted(row, rest) => vals.Many? && AllTyped(row, vals.rows) && Typed(rest, vals.rest)
  }

  predicate AllTyped(row: Schema, rows: Rows)
    decreases row, rows
  {
    match rows
    case NoRows => true
    case Row(first, more) => Typed(row, first) && AllTyped(row, more)
  }

  predicate NulFree(s: seq<Byte>) {
    forall i | 0 <= i < |s| :: s[i] != 0
  }

  /** Strings hold no zero and lists have fewer than 256 rows. */
  predicate Clean(vals: Values)
    decreases vals
  {
    match vals
    case Done => true
    case Num(_, rest) => Clean(rest)
    case Str(s, rest) => NulFree(s) && Clean(rest)
    case Many(rows, rest) => Length(rows) < 256 && AllClean(rows) && Clean(rest)
  }

  predicate AllClean(rows: Rows)
    decreases rows
  {
    match rows
    case NoRows => true
    case Row(first, more) => Clean(first) && AllClean(more)
  }

  function Chars(s: seq<Byte>): seq<Scalar> {
    seq(|s|, i requires 0 <= i < |s| => Scalar(1, s[i]))
  }

  /** The writes that operator<< makes for these values, in order. */
  function Scalars(schema: Schema, vals: Values): seq<Scalar>
    requires Typed(schema, vals)
    decreases schema, vals
  {
    match schema
    case End => []
    case Number(width, rest) => [Scalar(width, vals.v)] + Scalars(rest, vals.rest)
    case Text(rest) => Chars(vals.s) + [Scalar(1, 0)] + Scalars(rest, vals.rest)
    case Counted(row, rest) =>
      [Scalar(1, Length(vals.rows))] + RowScalars(row, vals.rows) + Scalars(rest, vals.rest)
  }

  function RowScalars(row: Schema, rows: Rows): seq<Scalar>
    requires AllTyped(row, rows)
    decreases row, rows
  {
    match rows
    case NoRows => []
    case Row(first, more) => Scalars(row, first) + RowScalars(row, more)
  }

  /** The same as bytes. */
  function Encoded(schema: Schema, vals: Values): seq<Byte>
    requires Typed(schema, vals)
    decreases schema, vals
  {
    match schema
    case End => []
    case Number(width, rest) => Little(width, vals.v) + Encoded(rest, vals.rest)
    case Text(rest) => vals.s + [0] + Encoded(rest, vals.rest)
    case Counted(row, rest) => [Length(vals.rows) % 256] + EncodedRows(row, vals.rows) + Encoded(rest, vals.rest)
  }

  function EncodedRows(row: Schema, rows: Rows): seq<Byte>
    requires AllTyped(row, rows)
    decreases row, rows
  {
    match rows
    case NoRows => []
    case Row(first, more) => Encoded(row, first) + EncodedRows(row, more)
  }

  lemma {:induction false} EncodingAppend(xs: seq<Scalar>, ys: seq<Scalar>)
    ensures Encoding(xs + ys) == Encoding(xs) + Encoding(ys)
    decreases |xs|
  {
    hide Little;
    if |xs| == 0 {
      assert xs + ys == ys;
    } else {
      EncodingAppend(xs[1..], ys);
      assert (xs + ys)[1..] == xs[1..] + ys;
    }
  }

  lemma EncodingOfOne(x: Scalar)
    ensures Encoding([x]) == Little(x.width, x.v)
  {
    hide Little;
    assert [x][1..] == [];
  }

  lemma ByteIsLittle(v: nat)
    ensures Little(1, v) == [v % 256]
  {
    assert Little(0, v / 256) == [];
  }

  lemma {:induction false} EncodingOfChars(s: seq<Byte>)
    ensures Encoding(Chars(s)) == s
    decreases |s|
  {
    hide Little;
    if |s| > 0 {
      ByteIsLittle(s[0]);
      EncodingOfChars(s[1..]);
      assert Chars(s)[1..] == Chars(s[1..]);
    }
  }

  lemma {:induction false} ScalarsEncode(schema: Schema, vals: Values)
    requires Typed(schema, vals)
    ensures Encoding(Scalars(schema, vals)) == Encoded(schema, vals)
    decreases schema, vals
  {
    hide Little, Encoding, Chars;
    match schema
    case End => EncodingNone();
    case Number(width, rest) =>
      ScalarsEncode(rest, vals.rest);
      EncodingAppend([Scalar(width, vals.v)], Scalars(rest, vals.rest));
      EncodingOfOne(Scalar(width, vals.v));
    case Text(rest) =>
      ScalarsEncode(rest, vals.rest);
      EncodingAppend(Chars(vals.s) + [Scalar(1, 0)], Scalars(rest, vals.rest));
      EncodingAppend(Chars(vals.s), [Scalar(1, 0)]);
      EncodingOfChars(vals.s);
      EncodingOfOne(Scalar(1, 0));
      ByteIsLittle(0);
    case Counted(row, rest) =>
      var n := Scalar(1, Length(vals.rows));
      ScalarsEncode(rest, vals.rest);
      RowScalarsEncode(row, vals.rows);
      EncodingAppend([n] + RowScalars(row, vals.rows), Scalars(rest, vals.rest));
      EncodingAppend([n], RowScalars(row, vals.rows));
      EncodingOfOne(n);
      ByteIsLittle(Length(vals.rows));
  }

  lemma EncodingNone()
    ensures Encoding([]) == []
  {}

  lemma {:induction false} RowScalarsEncode(row: Schema, rows: Rows)
    requires AllTyped(row, rows)
    ensures Encoding(RowScalars(row, rows)) == EncodedRows(row, rows)
    decreases row, rows
  {
    hide Little, Encoding, Chars;
    match rows
    case NoRows => EncodingNone();
    case Row(first, more) =>
      ScalarsEncode(row, first);
      RowScalarsEncode(row, more);
      EncodingAppend(Scalars(row, first), RowScalars(row, more));
  }

  // ---- Reading ---------------------------------------------------------------------------------------

  /** readNext: zero, and no progress, when the value would reach the last byte of the buffer. */
  function Read(b: seq<Byte>, at: nat, width: nat): (r: (nat, nat))
    requires |b| == CAPACITY
    ensures r.1 == at || (r.1 == at + width < CAPACITY)
    ensures r.0 != 0 ==> r.1 == at + width < CAPACITY
  {
    if at + width >= CAPACITY then (0, at) else (FromLittle(b[at..at + width]), at + width)
  }

  lemma OneByte(b: seq<Byte>, at: nat)
    requires |b| == CAPACITY && at + 1 < CAPACITY
    ensures Read(b, at, 1) == (b[at] as nat, at + 1)
  {
    var s := b[at..at + 1];
    assert s == [b[at]];
    assert FromLittle(s) == s[0] + 256 * FromLittle(s[1..]) && FromLittle([]) == 0;
    assert s[1..] == [];
  }

  /** Reading a string stops at a zero, and a read beyond the end is one. */
  function ReadText(b: seq<Byte>, at: nat): (r: (seq<Byte>, nat))
    requires |b| == CAPACITY
    ensures at <= r.1 && (at < CAPACITY ==> r.1 < CAPACITY)
    decreases CAPACITY - at
  {
    if at + 1 >= CAPACITY then ([], at)
    else if b[at] == 0 then ([], at + 1)
    else
      var (s, next) := ReadText(b, at + 1);
      ([b[at]] + s, next)
  }

  function ReadValues(schema: Schema, b: seq<Byte>, at: nat): (r: (Values, nat))
    requires |b| == CAPACITY
    decreases schema, 0
  {
    match schema
    case End => (Done, at)
    case Number(width, rest) =>
      var (v, next) := Read(b, at, width);
      var (vals, end) := ReadValues(rest, b, next);
      (Num(v, vals), end)
    case Text(rest) =>
      var (s, next) := ReadText(b, at);
      var (vals, end) := ReadValues(rest, b, next);
      (Str(s, vals), end)
    case Counted(row, rest) =>
      var (n, first) := Read(b, at, 1);
      var (rows, next) := ReadRows(row, n, b, first);
      var (vals, end) := ReadValues(rest, b, next);
      (Many(rows, vals), end)
  }

  function ReadRows(row: Schema, n: nat, b: seq<Byte>, at: nat): (r: (Rows, nat))
    requires |b| == CAPACITY
    decreases row, 1, n
  {
    if n == 0 then (NoRows, at)
    else
      var (first, next) := ReadValues(row, b, at);
      var (more, end) := ReadRows(row, n - 1, b, next);
      (Row(first, more), end)
  }

  /** The buffer holds these bytes at this offset, and they end before the last byte. */
  predicate Holds(b: seq<Byte>, at: nat, s: seq<Byte>) {
    |b| == CAPACITY && at + |s| < CAPACITY && b[at..at + |s|] == s
  }

  lemma HoldsParts(b: seq<Byte>, at: nat, x: seq<Byte>, y: seq<Byte>)
    requires Holds(b, at, x + y)
    ensures Holds(b, at, x) && Holds(b, at + |x|, y)
  {
    var s := x + y;
    assert s[..|x|] == x && s[|x|..] == y;
    assert b[at..at + |x|] == b[at..at + |s|][..|x|];
    assert b[at + |x|..at + |s|] == b[at..at + |s|][|x|..];
  }

  lemma {:induction false} TextReadsBack(b: seq<Byte>, at: nat, s: seq<Byte>)
    requires Holds(b, at, s + [0]) && NulFree(s)
    ensures ReadText(b, at) == (s, at + |s| + 1)
    decreases |s|
  {
    assert b[at] == b[at..at + |s| + 1][0] == (s + [0])[0];
    if |s| > 0 {
      assert s == [s[0]] + s[1..];
      assert [s[0]] + (s[1..] + [0]) == s + [0];
      HoldsParts(b, at, [s[0]], s[1..] + [0]);
      TextReadsBack(b, at + 1, s[1..]);
    }
  }

  /** Reading with the schema of the writer returns the written values, nested lists included. */
  lemma {:induction false} ValuesReadBack(schema: Schema, vals: Values, b: seq<Byte>, at: nat)
    requires Typed(schema, vals) && Clean(vals) && Holds(b, at, Encoded(schema, vals))
    ensures ReadValues(schema, b, at) == (vals, at + |Encoded(schema, vals)|)
    decreases schema, vals
  {
    hide Little, Read, FromLittle, ReadText, Holds, Pow256, NulFree, Length;
    HoldsSize(b, at, Encoded(schema, vals));
    match schema
    case End =>
    case Number(width, rest) =>
      HoldsParts(b, at, Little(width, vals.v), Encoded(rest, vals.rest));
      NumberReadsBack(b, at, width, vals.v);
      ValuesReadBack(rest, vals.rest, b, at + width);
    case Text(rest) =>
      HoldsParts(b, at, vals.s + [0], Encoded(rest, vals.rest));
      TextReadsBack(b, at, vals.s);
      ValuesReadBack(rest, vals.rest, b, at + |vals.s| + 1);
    case Counted(row, rest) =>
      var body := EncodedRows(row, vals.rows);
      CountReadsBack(b, at, Length(vals.rows), body, Encoded(rest, vals.rest));
      RowsReadBack(row, vals.rows, b, at + 1);
      ValuesReadBack(rest, vals.rest, b, at + 1 + |body|);
  }

  lemma CountReadsBack(b: seq<Byte>, at: nat, n: nat, body: seq<Byte>, tail: seq<Byte>)
    requires n < 256 && Holds(b, at, [n % 256] + body + tail)
    ensures |b| == CAPACITY && Read(b, at, 1) == (n, at + 1)
    ensures Holds(b, at + 1, body) && Holds(b, at + 1 + |body|, tail)
  {
    hide Little, Read, Holds, Pow256;
    HoldsParts(b, at, [n % 256] + body, tail);
    HoldsParts(b, at, [n % 256], body);
    ByteIsLittle(n);
    ByteBelow(n);
    NumberReadsBack(b, at, 1, n);
  }

  lemma HoldsSize(b: seq<Byte>, at: nat, s: seq<Byte>)
    requires Holds(b, at, s)
    ensures |b| == CAPACITY
  {}

  lemma ByteBelow(n: nat)
    requires n < 256
    ensures n < Pow256(1)
  {
    assert Pow256(0) == 1;
  }

  lemma NumberReadsBack(b: seq<Byte>, at: nat, width: nat, v: nat)
    requires v < Pow256(width) && Holds(b, at, Little(width, v))
    ensures |b| == CAPACITY && Read(b, at, width) == (v, at + width)
  {
    hide Little, FromLittle, Pow256;
    LittleReadsBack(width, v);
  }

  lemma {:induction false} RowsReadBack(row: Schema, rows: Rows, b: seq<Byte>, at: nat)
    requires AllTyped(row, rows) && AllClean(rows) && Holds(b, at, EncodedRows(row, rows))
    ensures |b| == CAPACITY
    ensures ReadRows(row, Length(rows), b, at) == (rows, at + |EncodedRows(row, rows)|)
    decreases row, rows
  {
    hide Little, Read, FromLittle, ReadText, Holds, Pow256, NulFree;
    HoldsSize(b, at, EncodedRows(row, rows));
    match rows
    case NoRows =>
    case Row(first, more) =>
      HoldsParts(b, at, Encoded(row, first), EncodedRows(row, more));
      ValuesReadBack(row, first, b, at);
      RowsReadBack(row, more, b, at + |Encoded(row, first)|);
  }

  // ---- Whole packets ------------------------------------------------------------------------------------

  /** getPacked: the written part of the buffer. */
  function Wire(p: Packet): seq<Byte>
    requires Valid(p)
  {
    p.buffer[..p.size]
  }

  function Full(schema: Schema): Schema {
    Number(2, Number(2, Number(2, schema)))
  }

  function FullValues(size: nat, kind: nat, crc: nat, vals: Values): Values {
    Num(size, Num(kind, Num(crc, vals)))
  }

  /** A receiver's buffer: the packet, then whatever was there before. */
  predicate Receives(r: seq<Byte>, wire: seq<Byte>) {
    |r| == CAPACITY && |wire| < CAPACITY && r[..|wire|] == wire
  }

  lemma FullEncoded(schema: Schema, size: nat, kind: nat, crc: nat, vals: Values)
    requires Typed(schema, vals) && size < 0x1_0000 && kind < 0x1_0000 && crc < 0x1_0000
    ensures Typed(Full(schema), FullValues(size, kind, crc, vals))
    ensures Encoded(Full(schema), FullValues(size, kind, crc, vals))
         == Little(2, size) + (Little(2, kind) + Little(2, crc) + Encoded(schema, vals))
  {
    hide Little, Pow256;
    TwoBytesBelow();
    var s1, v1 := Number(2, schema), Num(crc, vals);
    var s2, v2 := Number(2, s1), Num(kind, v1);
    assert Typed(s1, v1) && Encoded(s1, v1) == Little(2, crc) + Encoded(schema, vals);
    assert Typed(s2, v2) && Encoded(s2, v2) == Little(2, kind) + Encoded(s1, v1);
    assert Typed(Full(schema), Num(size, v2));
    assert Little(2, kind) + (Little(2, crc) + Encoded(schema, vals))
        == Little(2, kind) + Little(2, crc) + Encoded(schema, vals);
  }

  lemma FullClean(size: nat, kind: nat, crc: nat, vals: Values)
    requires Clean(vals)
    ensures Clean(FullValues(size, kind, crc, vals))
  {
    var v := Num(crc, vals);
    assert Clean(v) && Clean(Num(kind, v));
  }

  lemma TwoBytesBelow()
    ensures Pow256(2) == 0x1_0000
  {
    assert Pow256(0) == 1;
    assert Pow256(1) == 256;
  }

  /** Whoever receives a packet that starts with the right content reads the right values. */
  lemma ContentReads(p: Packet, r: seq<Byte>, schema: Schema, kind: nat, crc: nat, vals: Values)
    requires Valid(p) && Receives(r, Wire(p)) && Typed(schema, vals) && Clean(vals)
    requires kind < 0x1_0000 && crc < 0x1_0000
    requires Little(2, kind) + Little(2, crc) + Encoded(schema, vals) <= Content(p)
    ensures ReadValues(Full(schema), r, 0).0 == FullValues(p.size, kind, crc, vals)
  {
    hide Little, Encoded, ReadValues, Typed, Clean;
    FullClean(p.size, kind, crc, vals);
    var body := Little(2, kind) + Little(2, crc) + Encoded(schema, vals);
    var all := Little(2, p.size) + body;
    FullEncoded(schema, p.size, kind, crc, vals);
    assert Wire(p) == Little(2, p.size) + Content(p) by {
      assert Wire(p) == p.buffer[..2] + p.buffer[2..p.size];
    }
    assert all <= Wire(p);
    assert r[0..|all|] == r[..|Wire(p)|][..|all|] == all;
    ValuesReadBack(Full(schema), FullValues(p.size, kind, crc, vals), r, 0);
  }

  function Written(buffer: seq<Byte>, kind: nat, crc: nat, schema: Schema, vals: Values): Packet
    requires |buffer| == CAPACITY && Typed(schema, vals)
  {
    WriteAll(Fresh(buffer, kind, crc), Scalars(schema, vals))
  }

  lemma WrittenContent(buffer: seq<Byte>, kind: nat, crc: nat, schema: Schema, vals: Values)
    requires |buffer| == CAPACITY && Typed(schema, vals) && HEADER + |Encoded(schema, vals)| < CAPACITY
    ensures var p := Written(buffer, kind, crc, schema, vals);
      && Valid(p) && p.size == HEADER + |Encoded(schema, vals)|
      && Content(p) == Little(2, kind) + Little(2, crc) + Encoded(schema, vals)
  {
    hide Little, Encoded, Scalars, Typed, Fresh, WriteAll, Encoding, Content;
    FreshIsValid(buffer, kind, crc);
    ScalarsEncode(schema, vals);
    WriteAllAppends(Fresh(buffer, kind, crc), Scalars(schema, vals));
  }

  /** The receiving constructors read size, type and CRC, then the fields. */
  lemma FieldsFollowHeader(r: seq<Byte>, schema: Schema, size: nat, kind: nat, crc: nat, vals: Values)
    requires |r| == CAPACITY && ReadValues(Full(schema), r, 0).0 == FullValues(size, kind, crc, vals)
    ensures ReadValues(schema, r, HEADER).0 == vals
  {
    hide ReadValues, Read;
    ReadNumber(2, Number(2, Number(2, schema)), r, 0);
    ReadNumber(2, Number(2, schema), r, Read(r, 0, 2).1);
    ReadNumber(2, schema, r, Read(r, 2, 2).1);
    ShortReads(r);
  }

  lemma ShortReads(r: seq<Byte>)
    requires |r| == CAPACITY
    ensures Read(r, 0, 2).1 == 2 && Read(r, 2, 2).1 == 4 && Read(r, 4, 2).1 == 6
  {
    hide FromLittle;
  }

  /** Any receiving buffer that starts with the wire bytes yields the header and exactly these values. */
  ghost predicate Delivers(wire: seq<Byte>, kind: nat, crc: nat, schema: Schema, vals: Values) {
    forall r | |r| == CAPACITY && Receives(r, wire) ::
      ReadValues(Full(schema), r, 0).0 == FullValues(|wire|, kind, crc, vals) && ReadValues(schema, r, HEADER).0 == vals
  }

  lemma ContentDelivers(p: Packet, schema: Schema, kind: nat, crc: nat, vals: Values)
    requires Valid(p) && Typed(schema, vals) && Clean(vals) && kind < 0x1_0000 && crc < 0x1_0000
    requires Little(2, kind) + Little(2, crc) + Encoded(schema, vals) <= Content(p)
    ensures Delivers(Wire(p), kind, crc, schema, vals)
  {
    hide Little, Encoded, ReadValues, Typed, Receives, Content;
    forall r | |r| == CAPACITY && Receives(r, Wire(p))
      ensures ReadValues(Full(schema), r, 0).0 == FullValues(|Wire(p)|, kind, crc, vals)
      ensures ReadValues(schema, r, HEADER).0 == vals
    {
      ContentReads(p, r, schema, kind, crc, vals);
      FieldsFollowHeader(r, schema, p.size, kind, crc, vals);
    }
  }

  /** Any clean packet that fits is read back, field for field, from any receiving buffer. */
  lemma PacketRoundTrip(buffer: seq<Byte>, kind: nat, crc: nat, schema: Schema, vals: Values)
    requires |buffer| == CAPACITY && Typed(schema, vals) && Clean(vals) && HEADER + |Encoded(schema, vals)| < CAPACITY
    requires kind < 0x1_0000 && crc < 0x1_0000
    ensures var p := Written(buffer, kind, crc, schema, vals);
      && Valid(p) && |Wire(p)| == HEADER + |Encoded(schema, vals)|
      && Delivers(Wire(p), kind, crc, schema, vals)
  {
    hide Little, Encoded, ReadValues, Typed, Clean, Written, Receives, Content, Delivers;
    WrittenContent(buffer, kind, crc, schema, vals);
    ContentDelivers(Written(buffer, kind, crc, schema, vals), schema, kind, crc, vals);
  }

  lemma {:induction false} ReadTextIsClean(b: seq<Byte>, at: nat)
    requires |b| == CAPACITY
    ensures NulFree(ReadText(b, at).0)
    decreases CAPACITY - at
  {
    if at + 1 < CAPACITY && b[at] != 0 {
      ReadTextIsClean(b, at + 1);
    }
  }

  lemma ReadByteIsSmall(b: seq<Byte>, at: nat)
    requires |b| == CAPACITY
    ensures Read(b, at, 1).0 < 256
  {
    hide FromLittle;
    if at + 1 < CAPACITY {
      OneByte(b, at);
    }
  }

  /** Whatever the bytes, what is read has no zeros in its strings and no list of 256 rows. */
  lemma {:induction false} ReadIsClean(schema: Schema, b: seq<Byte>, at: nat)
    requires |b| == CAPACITY
    ensures Clean(ReadValues(schema, b, at).0)
    decreases schema, 0
  {
    hide Read, ReadText, NulFree;
    match schema
    case End =>
    case Number(width, rest) => ReadIsClean(rest, b, Read(b, at, width).1);
    case Text(rest) =>
      ReadTextIsClean(b, at);
      ReadIsClean(rest, b, ReadText(b, at).1);
    case Counted(row, rest) =>
      var (n, first) := Read(b, at, 1);
      ReadByteIsSmall(b, at);
      ReadRowsAreClean(row, n, b, first);
      ReadIsClean(rest, b, ReadRows(row, n, b, first).1);
  }

  lemma {:induction false} ReadRowsAreClean(row: Schema, n: nat, b: seq<Byte>, at: nat)
    requires |b| == CAPACITY
    ensures AllClean(ReadRows(row, n, b, at).0) && Length(ReadRows(row, n, b, at).0) == n
    decreases row, 1, n
  {
    hide Clean;
    if n > 0 {
      ReadIsClean(row, b, at);
      ReadRowsAreClean(row, n - 1, b, ReadValues(row, b, at).1);
    }
  }

  /** A packet that fits is read back exactly when its strings hold no zero and its lists fewer than 256 rows. */
  lemma ReadsBackIffClean(buffer: seq<Byte>, kind: nat, crc: nat, schema: Schema, vals: Values, r: seq<Byte>)
    requires |buffer| == CAPACITY && Typed(schema, vals) && HEADER + |Encoded(schema, vals)| < CAPACITY
    requires kind < 0x1_0000 && crc < 0x1_0000
    ensures var p := Written(buffer, kind, crc, schema, vals);
      && Valid(p) && |Wire(p)| == HEADER + |Encoded(schema, vals)|
      && (Receives(r, Wire(p)) ==> (ReadValues(schema, r, HEADER).0 == vals <==> Clean(vals)))
  {
    hide Little, Encoded, ReadValues, Typed, Clean, Written, Content;
    WrittenContent(buffer, kind, crc, schema, vals);
    if Clean(vals) {
      PacketRoundTrip(buffer, kind, crc, schema, vals);
    } else if Receives(r, Wire(Written(buffer, kind, crc, schema, vals))) {
      ReadIsClean(schema, r, HEADER);
    }
  }

  /** A string that holds a zero fits and is not read back. */
  lemma ZeroIsLost(buffer: seq<Byte>, kind: nat, crc: nat, r: seq<Byte>)
    requires |buffer| == CAPACITY && kind < 0x1_0000 && crc < 0x1_0000
    ensures var schema, vals := Text(End), Str([0], Done);
      && Typed(schema, vals) && Valid(Written(buffer, kind, crc, schema, vals))
      && (Receives(r, Wire(Written(buffer, kind, crc, schema, vals))) ==> ReadValues(schema, r, HEADER).0 != vals)
  {
    hide Written, ReadValues, Wire, Valid, Receives;
    var schema, vals := Text(End), Str([0], Done);
    assert Typed(End, Done) && Encoded(End, Done) == [];
    assert |Encoded(schema, vals)| == 2;
    assert !NulFree([0]) by { assert [0][0] == 0; }
    assert !Clean(vals);
    ReadsBackIffClean(buffer, kind, crc, schema, vals, r);
  }

  // ---- Broadcasts -------------------------------------------------------------------------------------------

  /** getPacked runs pack once per recipient, on the same packet. */
  function PackedTimes(p: Packet, xs: seq<Scalar>, n: nat): (r: Packet)
    requires |p.buffer| == CAPACITY
    ensures |r.buffer| == CAPACITY
  {
    if n == 0 then p else WriteAll(PackedTimes(p, xs, n - 1), xs)
  }

  lemma {:induction false} PackingOnlyAdds(p: Packet, xs: seq<Scalar>, n: nat)
    requires Valid(p) && n >= 1
    ensures Valid(WriteAll(p, xs)) && Valid(PackedTimes(p, xs, n))
    ensures Content(WriteAll(p, xs)) <= Content(PackedTimes(p, xs, n))
  {
    hide WriteAll, Content;
    WriteAllKeeps(p, xs);
    if n == 1 {
      assert PackedTimes(p, xs, 0) == p;
    } else {
      PackingOnlyAdds(p, xs, n - 1);
      WriteAllKeeps(PackedTimes(p, xs, n - 1), xs);
    }
  }

  /** However often a broadcast repacks, the n-th recipient reads the same values, with its own length as size. */
  lemma EveryRecipientReads(buffer: seq<Byte>, kind: nat, crc: nat, schema: Schema, vals: Values, n: nat)
    requires |buffer| == CAPACITY && Typed(schema, vals) && Clean(vals) && HEADER + |Encoded(schema, vals)| < CAPACITY
    requires kind < 0x1_0000 && crc < 0x1_0000 && n >= 1
    ensures var p := PackedTimes(Fresh(buffer, kind, crc), Scalars(schema, vals), n);
      Valid(p) && |Wire(p)| < CAPACITY && Delivers(Wire(p), kind, crc, schema, vals)
  {
    hide Little, Encoded, ReadValues, Typed, Clean, Receives, Content, Fresh, WriteAll, Scalars, PackedTimes;
    hide Encoding, Delivers;
    FreshIsValid(buffer, kind, crc);
    WrittenContent(buffer, kind, crc, schema, vals);
    PackingOnlyAdds(Fresh(buffer, kind, crc), Scalars(schema, vals), n);
    ContentDelivers(PackedTimes(Fresh(buffer, kind, crc), Scalars(schema, vals), n), schema, kind, crc, vals);
  }

  // ---- The object ---------------------------------------------------------------------------------------------

  class CRosePacket {
    const buffer: array<Byte>
    var current: nat
    var size: nat
    var kind: nat

    ghost predicate Sized() {
      buffer.Length == CAPACITY
    }

    ghost function State(): Packet
      reads this, buffer
    {
      Packet(buffer[..], current, size)
    }

    constructor (kind: nat, crc: nat)
      ensures Sized() && fresh(buffer) && this.kind == kind
      ensures Valid(State()) && size == HEADER && Content(State()) == Little(2, kind) + Little(2, crc)
    {
      buffer := new Byte[CAPACITY];
      current, size, this.kind := 0, 0, kind;
      new;
      hide Little, Content, Valid, Write;
      ghost var b := buffer[..];
      FreshIsValid(b, kind, crc);
      WriteAllThree(Packet(b, 0, 0), Scalar(2, 0), Scalar(2, kind), Scalar(2, crc));
      WriteNext(2, 0);
      WriteNext(2, kind);
      WriteNext(2, crc);
    }

    /** The receiving constructor: as many bytes as the size field says, then size, type and CRC are read. */
    constructor FromBytes(bytes: seq<Byte>)
      requires |bytes| >= 2 && FromLittle(bytes[..2]) <= |bytes| <= CAPACITY
      ensures Sized() && fresh(buffer) && current == HEADER
      ensures var n := FromLittle(bytes[..2]); buffer[..n] == bytes[..n]
      ensures size == Read(buffer[..], 0, 2).0 && kind == Read(buffer[..], 2, 2).0
    {
      var n := FromLittle(bytes[..2]);
      buffer := new Byte[CAPACITY];
      current, size, kind := 0, 0, 0;
      new;
      hide FromLittle, Read;
      forall i | 0 <= i < n {
        buffer[i] := bytes[i];
      }
      ShortReads(buffer[..]);
      size := ReadNext(2);
      kind := ReadNext(2);
      var crc := ReadNext(2);
    }

    method StoreLittle(at: nat, width: nat, v: nat)
      requires at + width <= buffer.Length
      modifies buffer
      ensures buffer[..] == Put(old(buffer[..]), at, Little(width, v))
      decreases width
    {
      if width > 0 {
        buffer[at] := v % 256;
        ghost var b := buffer[..];
        StoreLittle(at + 1, width - 1, v / 256);
        PutCons(old(buffer[..]), at, v % 256, Little(width - 1, v / 256));
      }
    }

    method WriteNext(width: nat, v: nat)
      requires Sized()
      modifies this, buffer
      ensures State() == Write(old(State()), Scalar(width, v)) && kind == old(kind)
    {
      if current + width >= CAPACITY {
        return;
      }
      var at := current;
      current := current + width;
      size := size + width;
      StoreLittle(at, width, v);
      StoreLittle(0, 2, size);
    }

    /** operator<< for std::string: the characters, then a zero. */
    method WriteString(s: seq<Byte>)
      requires Sized()
      modifies this, buffer
      ensures State() == WriteAll(old(State()), Chars(s) + [Scalar(1, 0)])
    {
      hide Write;
      ghost var all := Chars(s) + [Scalar(1, 0)];
      for i := 0 to |s|
        invariant WriteAll(State(), all[i..]) == WriteAll(old(State()), all)
      {
        assert all[i..][0] == Scalar(1, s[i]) && all[i..][1..] == all[i + 1..];
        WriteNext(1, s[i]);
      }
      assert all[|s|..] == [Scalar(1, 0)] && [Scalar(1, 0)][1..] == [];
      WriteNext(1, 0);
      assert WriteAll(State(), []) == State();
    }

    method LoadLittle(at: nat, width: nat) returns (v: nat)
      requires at + width <= buffer.Length
      ensures v == FromLittle(buffer[at..at + width])
      decreases width
    {
      if width == 0 {
        v := 0;
      } else {
        var high := LoadLittle(at + 1, width - 1);
        assert buffer[at..at + width][1..] == buffer[at + 1..at + width];
        v := buffer[at] + 256 * high;
      }
    }

    method ReadNext(width: nat) returns (v: nat)
      requires Sized()
      modifies this
      ensures (v, current) == Read(buffer[..], old(current), width) && size == old(size) && kind == old(kind)
    {
      if current + width >= CAPACITY {
        return 0;
      }
      v := LoadLittle(current, width);
      assert buffer[..][current..current + width] == buffer[current..current + width];
      current := current + width;
    }

    /** operator>> for std::string: greedy up to a zero; it stops inside the buffer whatever the bytes are. */
    method ReadString() returns (s: seq<Byte>)
      requires Sized()
      modifies this
      ensures (s, current) == ReadText(buffer[..], old(current)) && size == old(size) && kind == old(kind)
    {
      hide Read;
      s := [];
      ghost var start := current;
      var c := NextChar();
      assert s + [c] == [c];
      while c != 0
        invariant size == old(size) && kind == old(kind) && c < 256
        invariant c == 0 ==> ReadText(buffer[..], start) == (s, current)
        invariant c != 0 ==> current < CAPACITY
        invariant c != 0 ==>
          ReadText(buffer[..], start) == (s + [c] + ReadText(buffer[..], current).0, ReadText(buffer[..], current).1)
        decreases if c == 0 then 0 else 1 + CAPACITY - current
      {
        s := s + [c];
        ghost var at := current;
        c := NextChar();
        assert s + [] == s;
        if c != 0 {
          assert s + ([c] + ReadText(buffer[..], current).0) == s + [c] + ReadText(buffer[..], current).0;
        }
      }
    }

    method NextChar() returns (c: nat)
      requires Sized()
      modifies this
      ensures size == old(size) && kind == old(kind) && c < 256 && old(current) <= current
      ensures c == 0 ==> ReadText(buffer[..], old(current)) == ([], current)
      ensures c != 0 ==> current == old(current) + 1 < CAPACITY
      ensures c != 0 ==>
        ReadText(buffer[..], old(current)) == ([c] + ReadText(buffer[..], current).0, ReadText(buffer[..], current).1)
    {
      ghost var at := current;
      if at + 1 < CAPACITY {
        OneByte(buffer[..], at);
      }
      c := ReadNext(1);
    }
  }

  // ---- Writes and reads one at a time -----------------------------------------------------------------

  lemma {:induction false} WriteAllConcat(p: Packet, xs: seq<Scalar>, ys: seq<Scalar>)
    requires |p.buffer| == CAPACITY
    ensures WriteAll(p, xs + ys) == WriteAll(WriteAll(p, xs), ys)
    decreases |xs|
  {
    hide Write;
    if |xs| == 0 {
      assert xs + ys == ys;
    } else {
      WriteAllConcat(Write(p, xs[0]), xs[1..], ys);
      assert (xs + ys)[1..] == xs[1..] + ys;
    }
  }

  lemma WriteNone(p: Packet)
    requires |p.buffer| == CAPACITY
    ensures WriteAll(p, []) == p
  {}

  lemma WriteFirst(p: Packet, x: Scalar, xs: seq<Scalar>)
    requires |p.buffer| == CAPACITY
    ensures WriteAll(p, [x] + xs) == WriteAll(Write(p, x), xs)
  {
    hide Write;
    assert ([x] + xs)[1..] == xs;
  }

  /** A number goes out first, then the rest. */
  lemma WriteNumber(p: Packet, width: nat, rest: Schema, v: nat, vals: Values)
    requires |p.buffer| == CAPACITY && Typed(Number(width, rest), Num(v, vals))
    ensures Typed(rest, vals)
    ensures WriteAll(p, Scalars(Number(width, rest), Num(v, vals)))
         == WriteAll(Write(p, Scalar(width, v)), Scalars(rest, vals))
  {
    hide Write, WriteAll, Pow256;
    assert Scalars(Number(width, rest), Num(v, vals)) == [Scalar(width, v)] + Scalars(rest, vals);
    WriteFirst(p, Scalar(width, v), Scalars(rest, vals));
  }

  lemma WriteText(p: Packet, rest: Schema, s: seq<Byte>, vals: Values)
    requires |p.buffer| == CAPACITY && Typed(Text(rest), Str(s, vals))
    ensures Typed(rest, vals)
    ensures WriteAll(p, Scalars(Text(rest), Str(s, vals)))
         == WriteAll(WriteAll(p, Chars(s) + [Scalar(1, 0)]), Scalars(rest, vals))
  {
    hide Write, WriteAll, Chars;
    assert Scalars(Text(rest), Str(s, vals)) == Chars(s) + [Scalar(1, 0)] + Scalars(rest, vals);
    WriteAllConcat(p, Chars(s) + [Scalar(1, 0)], Scalars(rest, vals));
  }

  lemma WriteEnd(p: Packet)
    requires |p.buffer| == CAPACITY
    ensures WriteAll(p, Scalars(End, Done)) == p
  {
    WriteNone(p);
  }

  lemma ReadNumber(width: nat, rest: Schema, b: seq<Byte>, at: nat)
    requires |b| == CAPACITY
    ensures var (v, next) := Read(b, at, width);
      ReadValues(Number(width, rest), b, at) == (Num(v, ReadValues(rest, b, next).0), ReadValues(rest, b, next).1)
  {
    hide Read;
  }

  lemma ReadTextField(rest: Schema, b: seq<Byte>, at: nat)
    requires |b| == CAPACITY
    ensures var (s, next) := ReadText(b, at);
      ReadValues(Text(rest), b, at) == (Str(s, ReadValues(rest, b, next).0), ReadValues(rest, b, next).1)
  {
    hide ReadText;
  }

  lemma ReadEnd(b: seq<Byte>, at: nat)
    requires |b| == CAPACITY
    ensures ReadValues(End, b, at) == (Done, at)
  {}

  lemma PutCons(b: seq<Byte>, at: nat, x: Byte, s: seq<Byte>)
    requires at + 1 + |s| <= |b|
    ensures Put(b[at := x], at + 1, s) == Put(b, at, [x] + s)
  {}
}
