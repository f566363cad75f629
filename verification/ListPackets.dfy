/**
  Two packets that hold counted lists, SrvChannelListReply and SrvCharacterListReply: what
  their pack methods write is what their receiving constructors read.
 */
module ListPackets {
  import opened Options
  import opened RosePacket

  const PAKLC_CHANNEL_LIST_REPLY := 0x704
  const PAKCC_CHAR_LIST_REPLY := 0x712

  // ---- Rows of values -------------------------------------------------------------------------

  /** The rows of a list, followed by others. */
  function Prepend(vs: seq<Values>, rest: Rows): Rows {
    if |vs| == 0 then rest else Row(vs[0], Prepend(vs[1..], rest))
  }

  function RowsOf(vs: seq<Values>): Rows {
    Prepend(vs, NoRows)
  }

  lemma {:induction false} RowCount(vs: seq<Values>)
    ensures Length(RowsOf(vs)) == |vs|
  {
    if |vs| > 0 {
      RowCount(vs[1..]);
    }
  }

  lemma {:induction false} RowsDetermine(vs: seq<Values>, ws: seq<Values>)
    requires RowsOf(vs) == RowsOf(ws)
    ensures vs == ws
  {
    if |vs| > 0 && |ws| > 0 {
      RowsDetermine(vs[1..], ws[1..]);
      assert vs == [vs[0]] + vs[1..] && ws == [ws[0]] + ws[1..];
    }
  }

  lemma {:induction false} PrependOne(vs: seq<Values>, v: Values, rest: Rows)
    ensures Prepend(vs + [v], rest) == Prepend(vs, Row(v, rest))
    decreases |vs|
  {
    if |vs| == 0 {
      assert (vs + [v])[1..] == [];
      assert Prepend([], rest) == rest;
    } else {
      PrependOne(vs[1..], v, rest);
      assert (vs + [v])[1..] == vs[1..] + [v];
    }
  }

  /** A counted list that ends a packet: the count goes out first, then the rows. */
  lemma WriteCounted(p: Packet, row: Schema, vs: seq<Values>)
    requires |p.buffer| == CAPACITY && Typed(Counted(row, End), Many(RowsOf(vs), Done))
    ensures AllTyped(row, RowsOf(vs)) && vs[0..] == vs
    ensures WriteAll(p, Scalars(Counted(row, End), Many(RowsOf(vs), Done)))
         == WriteAll(Write(p, Scalar(1, |vs|)), RowScalars(row, RowsOf(vs)))
  {
    hide Write, WriteAll, RowScalars, RowsOf, AllTyped;
    RowCount(vs);
    assert Scalars(End, Done) == [];
    assert Scalars(Counted(row, End), Many(RowsOf(vs), Done)) == [Scalar(1, |vs|)] + RowScalars(row, RowsOf(vs));
    WriteFirst(p, Scalar(1, |vs|), RowScalars(row, RowsOf(vs)));
  }

  lemma WriteRow(p: Packet, row: Schema, vs: seq<Values>, i: nat)
    requires |p.buffer| == CAPACITY && i < |vs| && AllTyped(row, RowsOf(vs[i..]))
    ensures Typed(row, vs[i]) && AllTyped(row, RowsOf(vs[i + 1..]))
    ensures WriteAll(p, RowScalars(row, RowsOf(vs[i..])))
         == WriteAll(WriteAll(p, Scalars(row, vs[i])), RowScalars(row, RowsOf(vs[i + 1..])))
  {
    hide WriteAll, Scalars, Typed;
    assert vs[i..][0] == vs[i] && vs[i..][1..] == vs[i + 1..];
    WriteAllConcat(p, Scalars(row, vs[i]), RowScalars(row, RowsOf(vs[i + 1..])));
  }

  lemma WriteNoRows(p: Packet, row: Schema, none: seq<Values>)
    requires |p.buffer| == CAPACITY && none == []
    ensures WriteAll(p, RowScalars(row, RowsOf(none))) == p
  {
    WriteNone(p);
  }

  lemma ReadFirstRow(row: Schema, b: seq<Byte>, at: nat, n: nat, vs: seq<Values>, v: Values, next: nat)
    requires |b| == CAPACITY && n > 0 && ReadValues(row, b, at) == (v, next)
    ensures Prepend(vs, ReadRows(row, n, b, at).0) == Prepend(vs + [v], ReadRows(row, n - 1, b, next).0)
    ensures ReadRows(row, n, b, at).1 == ReadRows(row, n - 1, b, next).1
  {
    hide ReadValues, Prepend;
    PrependOne(vs, v, ReadRows(row, n - 1, b, next).0);
  }

  lemma ReadCounted(row: Schema, b: seq<Byte>, at: nat, n: nat, first: nat, vs: seq<Values>, end: nat)
    requires |b| == CAPACITY && Read(b, at, 1) == (n, first)
    requires ReadRows(row, n, b, first) == (Prepend(vs, ReadRows(row, 0, b, end).0), ReadRows(row, 0, b, end).1)
    ensures ReadValues(Counted(row, End), b, at) == (Many(RowsOf(vs), Done), end)
  {
    hide Read, Prepend;
    ReadEnd(b, end);
  }

  lemma {:induction false} RowsClean(vs: seq<Values>)
    ensures AllClean(RowsOf(vs)) <==> forall i | 0 <= i < |vs| :: Clean(vs[i])
  {
    hide Clean;
    if |vs| > 0 {
      RowsClean(vs[1..]);
      assert forall i | 1 <= i < |vs| :: vs[i] == vs[1..][i - 1];
    }
  }

  // ---- SrvChannelListReply --------------------------------------------------------------------

  datatype Channel = Channel(name: seq<Byte>, id: nat, lowAge: nat, highAge: nat, capacity: nat)

  const CHANNEL: Schema := Number(1, Number(1, Number(1, Number(2, Text(End)))))

  const CHANNEL_LIST: Schema := Number(4, Counted(CHANNEL, End))

  function ChannelValues(c: Channel): Values {
    Num(c.id, Num(c.lowAge, Num(c.highAge, Num(c.capacity, Str(c.name, Done)))))
  }

  function Channels(channels: seq<Channel>): (r: seq<Values>)
    ensures |r| == |channels|
  {
    seq(|channels|, i requires 0 <= i < |channels| => ChannelValues(channels[i]))
  }

  function ChannelList(id: nat, channels: seq<Channel>): Values {
    Num(id, Many(RowsOf(Channels(channels)), Done))
  }

  method PackChannel(p: CRosePacket, c: Channel)
    requires p.Sized() && Typed(CHANNEL, ChannelValues(c))
    modifies p, p.buffer
    ensures p.State() == WriteAll(old(p.State()), Scalars(CHANNEL, ChannelValues(c)))
  {
    hide Write, WriteAll, Scalars, Typed;
    ghost var v1 := Str(c.name, Done);
    ghost var v2 := Num(c.capacity, v1);
    ghost var v3 := Num(c.highAge, v2);
    WriteNumber(p.State(), 1, Number(1, Number(1, Number(2, Text(End)))), c.id, Num(c.lowAge, v3));
    p.WriteNext(1, c.id);
    WriteNumber(p.State(), 1, Number(1, Number(2, Text(End))), c.lowAge, v3);
    p.WriteNext(1, c.lowAge);
    WriteNumber(p.State(), 1, Number(2, Text(End)), c.highAge, v2);
    p.WriteNext(1, c.highAge);
    WriteNumber(p.State(), 2, Text(End), c.capacity, v1);
    p.WriteNext(2, c.capacity);
    WriteText(p.State(), End, c.name, Done);
    p.WriteString(c.name);
    WriteEnd(p.State());
  }

  /** SrvChannelListReply::pack writes exactly the values its schema lists. */
  method PackChannelList(p: CRosePacket, id: nat, channels: seq<Channel>)
    requires p.Sized() && Typed(CHANNEL_LIST, ChannelList(id, channels))
    modifies p, p.buffer
    ensures p.State() == WriteAll(old(p.State()), Scalars(CHANNEL_LIST, ChannelList(id, channels)))
  {
    hide Write, WriteAll, Scalars, RowScalars, Typed, AllTyped, RowsOf;
    ghost var vs := Channels(channels);
    WriteNumber(p.State(), 4, Counted(CHANNEL, End), id, Many(RowsOf(vs), Done));
    p.WriteNext(4, id);
    WriteCounted(p.State(), CHANNEL, vs);
    p.WriteNext(1, |channels|);
    ghost var all := WriteAll(p.State(), RowScalars(CHANNEL, RowsOf(vs)));
    for i := 0 to |channels|
      invariant AllTyped(CHANNEL, RowsOf(vs[i..]))
      invariant WriteAll(p.State(), RowScalars(CHANNEL, RowsOf(vs[i..]))) == all
    {
      WriteRow(p.State(), CHANNEL, vs, i);
      PackChannel(p, channels[i]);
    }
    WriteNoRows(p.State(), CHANNEL, vs[|channels|..]);
  }

  method ParseChannel(p: CRosePacket) returns (c: Channel)
    requires p.Sized()
    modifies p
    ensures (ChannelValues(c), p.current) == ReadValues(CHANNEL, p.buffer[..], old(p.current)) && p.size == old(p.size)
  {
    hide Read, ReadText, ReadValues;
    ghost var b := p.buffer[..];
    ReadNumber(1, Number(1, Number(1, Number(2, Text(End)))), b, p.current);
    var id := p.ReadNext(1);
    ReadNumber(1, Number(1, Number(2, Text(End))), b, p.current);
    var lowAge := p.ReadNext(1);
    ReadNumber(1, Number(2, Text(End)), b, p.current);
    var highAge := p.ReadNext(1);
    ReadNumber(2, Text(End), b, p.current);
    var capacity := p.ReadNext(2);
    ReadTextField(End, b, p.current);
    var name := p.ReadString();
    ReadEnd(b, p.current);
    c := Channel(name, id, lowAge, highAge, capacity);
  }

  /** What a channel list packet holds. */
  datatype ChannelReply = ChannelReply(id: nat, channels: seq<Channel>)

  /**
    The constructor of SrvChannelListReply reads exactly what the schema describes, from any bytes; it throws
    when the packet is of another type.
   */
  method ParseChannelList(p: CRosePacket) returns (reply: Option<ChannelReply>)
    requires p.Sized()
    modifies p
    ensures reply.Some? <==> old(p.kind) == PAKLC_CHANNEL_LIST_REPLY
    ensures reply.Some? ==>
      (ChannelList(reply.value.id, reply.value.channels), p.current)
      == ReadValues(CHANNEL_LIST, p.buffer[..], old(p.current))
  {
    hide Read, ReadValues, ReadRows, Prepend;
    if p.kind != PAKLC_CHANNEL_LIST_REPLY {
      return None;
    }
    ghost var b := p.buffer[..];
    ReadNumber(4, Counted(CHANNEL, End), b, p.current);
    var id := p.ReadNext(4);
    ghost var at := p.current;
    var nb := p.ReadNext(1);
    ghost var n, first := nb, p.current;
    var channels := [];
    NothingPrepended(ReadRows(CHANNEL, n, b, first).0);
    assert Channels(channels) == [];
    while nb > 0
      invariant 0 <= nb <= n
      invariant ReadRows(CHANNEL, n, b, first) ==
        (Prepend(Channels(channels), ReadRows(CHANNEL, nb, b, p.current).0), ReadRows(CHANNEL, nb, b, p.current).1)
      decreases nb
    {
      ghost var before := p.current;
      var channel := ParseChannel(p);
      ReadFirstRow(CHANNEL, b, before, nb, Channels(channels), ChannelValues(channel), p.current);
      assert Channels(channels + [channel]) == Channels(channels) + [ChannelValues(channel)];
      channels := channels + [channel];
      nb := nb - 1;
    }
    ReadCounted(CHANNEL, b, at, n, first, Channels(channels), p.current);
    reply := Some(ChannelReply(id, channels));
  }

  lemma NothingPrepended(rest: Rows)
    ensures Prepend([], rest) == rest
  {}

  lemma ChannelsDetermine(id: nat, channels: seq<Channel>, id': nat, channels': seq<Channel>)
    requires ChannelList(id, channels) == ChannelList(id', channels')
    ensures id == id' && channels == channels'
  {
    hide RowsOf;
    var vs, ws := Channels(channels), Channels(channels');
    RowsDetermine(vs, ws);
    forall i | 0 <= i < |channels|
      ensures channels[i] == channels'[i]
    {
      assert vs[i] == ws[i];
    }
  }

  /** Fewer than 256 channels, and no zero in a name. */
  predicate Sendable(channels: seq<Channel>) {
    |channels| < 256 && forall i | 0 <= i < |channels| :: NulFree(channels[i].name)
  }

  lemma ChannelsClean(id: nat, channels: seq<Channel>)
    ensures Clean(ChannelList(id, channels)) <==> Sendable(channels)
  {
    hide RowsOf, AllClean, NulFree, Length, ChannelValues;
    var vs := Channels(channels);
    RowCount(vs);
    RowsClean(vs);
    assert Clean(Done);
    assert Clean(ChannelList(id, channels)) <==> Clean(Many(RowsOf(vs), Done));
    forall i | 0 <= i < |channels|
      ensures Clean(vs[i]) <==> NulFree(channels[i].name)
    {
      ChannelClean(channels[i]);
    }
  }

  lemma ChannelClean(c: Channel)
    ensures Clean(ChannelValues(c)) <==> NulFree(c.name)
  {
    hide NulFree;
    var v1 := Str(c.name, Done);
    var v2 := Num(c.capacity, v1);
    var v3 := Num(c.highAge, v2);
    assert Clean(Done);
    assert Clean(v1) <==> NulFree(c.name);
    assert Clean(v3) <==> Clean(v2);
    assert Clean(Num(c.lowAge, v3)) <==> Clean(v3);
  }

  /** What is read from a packed channel list is that list exactly when the list is sendable. */
  lemma ChannelListRoundTrip(buffer: seq<Byte>, kind: nat, crc: nat, id: nat, channels: seq<Channel>,
                             r: seq<Byte>, id': nat, channels': seq<Channel>)
    requires |buffer| == CAPACITY && kind < 0x1_0000 && crc < 0x1_0000
    requires var vals := ChannelList(id, channels);
      Typed(CHANNEL_LIST, vals) && HEADER + |Encoded(CHANNEL_LIST, vals)| < CAPACITY
    requires var p := Written(buffer, kind, crc, CHANNEL_LIST, ChannelList(id, channels));
      |r| == |p.buffer| == CAPACITY && p.size < CAPACITY && r[..p.size] == p.buffer[..p.size]
    requires ReadValues(CHANNEL_LIST, r, HEADER).0 == ChannelList(id', channels')
    ensures (id' == id && channels' == channels) <==> Sendable(channels)
  {
    hide Written, Encoded, Typed, Clean, ReadValues, ChannelList, Wire, Valid, Sendable;
    ReadsBackIffClean(buffer, kind, crc, CHANNEL_LIST, ChannelList(id, channels), r);
    WireArrives(Written(buffer, kind, crc, CHANNEL_LIST, ChannelList(id, channels)), r);
    ChannelsClean(id, channels);
    if Sendable(channels) {
      ChannelsDetermine(id, channels, id', channels');
    }
  }

  /** The bytes of a list of one channel: id, count, the numbers in the order of pack, name, zero. */
  lemma OneChannelBytes(id: nat, c: Channel)
    requires Typed(CHANNEL_LIST, ChannelList(id, [c]))
    ensures Encoded(CHANNEL_LIST, ChannelList(id, [c])) ==
      Little(4, id) + [1] + (Little(1, c.id) + Little(1, c.lowAge) + Little(1, c.highAge) + Little(2, c.capacity)
      + c.name + [0])
  {
    hide Little, Pow256;
    var vs := Channels([c]);
    assert vs == [ChannelValues(c)] && vs[1..] == [];
    assert RowsOf(vs) == Row(ChannelValues(c), NoRows) by { assert Prepend(vs[1..], NoRows) == NoRows; }
    RowCount(vs);
    assert Typed(Counted(CHANNEL, End), Many(RowsOf(vs), Done));
    OneRow(CHANNEL, ChannelValues(c));
    OneChannel(c);
  }

  lemma OneRow(row: Schema, v: Values)
    requires Typed(Counted(row, End), Many(Row(v, NoRows), Done))
    ensures Typed(row, v) && Encoded(Counted(row, End), Many(Row(v, NoRows), Done)) == [1] + Encoded(row, v)
  {
    assert AllTyped(row, NoRows) && EncodedRows(row, NoRows) == [];
    assert Encoded(End, Done) == [];
    assert Length(NoRows) == 0 && Length(Row(v, NoRows)) == 1;
    assert EncodedRows(row, Row(v, NoRows)) == Encoded(row, v) + [];
  }

  lemma OneChannel(c: Channel)
    requires Typed(CHANNEL, ChannelValues(c))
    ensures Encoded(CHANNEL, ChannelValues(c)) ==
      Little(1, c.id) + Little(1, c.lowAge) + Little(1, c.highAge) + Little(2, c.capacity) + c.name + [0]
  {
    hide Little, Pow256;
    var v1 := Str(c.name, Done);
    var v2 := Num(c.capacity, v1);
    var v3 := Num(c.highAge, v2);
    var v4 := Num(c.lowAge, v3);
    assert Typed(Number(1, Number(1, Number(2, Text(End)))), v4) && Typed(Number(1, Number(2, Text(End))), v3);
    assert Typed(Number(2, Text(End)), v2) && Typed(Text(End), v1);
    assert Encoded(End, Done) == [];
    assert Encoded(Text(End), v1) == c.name + [0];
    assert Encoded(Number(2, Text(End)), v2) == Little(2, c.capacity) + (c.name + [0]);
    assert Encoded(Number(1, Number(2, Text(End))), v3)
        == Little(1, c.highAge) + (Little(2, c.capacity) + (c.name + [0]));
  }

  const NAMELESS: Channel := Channel([], 0, 0, 0, 0)

  lemma NamelessEncoded()
    ensures Typed(CHANNEL, ChannelValues(NAMELESS)) && |Encoded(CHANNEL, ChannelValues(NAMELESS))| == 6
  {
    hide Little;
    var v1 := Str([], Done);
    var v2 := Num(0, v1);
    var v3 := Num(0, v2);
    assert Typed(End, Done) && Encoded(End, Done) == [];
    assert Typed(Text(End), v1) && |Encoded(Text(End), v1)| == 1;
    assert Typed(Number(2, Text(End)), v2) && |Encoded(Number(2, Text(End)), v2)| == 3;
    assert Typed(Number(1, Number(2, Text(End))), v3) && |Encoded(Number(1, Number(2, Text(End))), v3)| == 4;
    assert Typed(Number(1, Number(1, Number(2, Text(End)))), Num(0, v3));
  }

  lemma {:induction false} NamelessRows(vs: seq<Values>)
    requires forall i | 0 <= i < |vs| :: vs[i] == ChannelValues(NAMELESS)
    ensures AllTyped(CHANNEL, RowsOf(vs)) && |EncodedRows(CHANNEL, RowsOf(vs))| == 6 * |vs|
  {
    hide Typed, Encoded, ChannelValues;
    if |vs| > 0 {
      NamelessEncoded();
      NamelessRows(vs[1..]);
    }
  }

  /** 256 channels fit into one packet and do not come back: their count is sent as 0. */
  lemma ManyChannelsAreLost(buffer: seq<Byte>, kind: nat, crc: nat, r: seq<Byte>)
    requires |buffer| == CAPACITY && kind < 0x1_0000 && crc < 0x1_0000
    ensures var vals := ChannelList(0, seq(256, i => NAMELESS));
      && Typed(CHANNEL_LIST, vals) && Valid(Written(buffer, kind, crc, CHANNEL_LIST, vals))
      && |Wire(Written(buffer, kind, crc, CHANNEL_LIST, vals))| == 1547
      && (Receives(r, Wire(Written(buffer, kind, crc, CHANNEL_LIST, vals))) ==>
            ReadValues(CHANNEL_LIST, r, HEADER).0 != vals)
  {
    hide Written, ReadValues, Wire, Valid, Receives, AllTyped, EncodedRows, RowsOf, ChannelValues, Clean, Little;
    var channels := seq(256, i => NAMELESS);
    var vs := Channels(channels);
    NamelessRows(vs);
    var schema, vals := Counted(CHANNEL, End), Many(RowsOf(vs), Done);
    assert Typed(End, Done) && Encoded(End, Done) == [];
    assert Typed(schema, vals) && |Encoded(schema, vals)| == 1 + 6 * 256;
    assert 0 < Pow256(4);
    assert Typed(CHANNEL_LIST, ChannelList(0, channels)) && |Encoded(CHANNEL_LIST, ChannelList(0, channels))| == 1541;
    ChannelsClean(0, channels);
    ReadsBackIffClean(buffer, kind, crc, CHANNEL_LIST, ChannelList(0, channels), r);
  }

  lemma WireArrives(p: Packet, r: seq<Byte>)
    requires Valid(p) && |r| == CAPACITY && p.size <= CAPACITY && r[..p.size] == p.buffer[..p.size]
    ensures Receives(r, Wire(p))
  {}

  // ---- SrvCharacterListReply ------------------------------------------------------------------

  const EQUIPPED := 8

  /** A line of the character list; an item is its 32-bit word. */
  datatype Character = Character(
    name: seq<Byte>, race: nat, level: nat, job: nat, deleteTime: nat, platinum: nat,
    face: nat, hair: nat, items: seq<nat>)

  function Items(n: nat): Schema {
    if n == 0 then End else Number(4, Items(n - 1))
  }

  function ItemValues(items: seq<nat>): Values {
    if |items| == 0 then Done else Num(items[0], ItemValues(items[1..]))
  }

  // The tails of the schema of one character.
  const LOOKS: Schema := Number(4, Number(4, Items(EQUIPPED)))
  const STANDING: Schema := Number(4, Number(1, LOOKS))
  const CHARACTER: Schema := Text(Number(1, Number(2, Number(2, STANDING))))

  const CHARACTER_LIST: Schema := Counted(CHARACTER, End)

  function LooksValues(c: Character): Values {
    Num(c.face, Num(c.hair, ItemValues(c.items)))
  }

  function StandingValues(c: Character): Values {
    Num(c.deleteTime, Num(c.platinum, LooksValues(c)))
  }

  function CharacterValues(c: Character): Values {
    Str(c.name, Num(c.race, Num(c.level, Num(c.job, StandingValues(c)))))
  }

  function Characters(characters: seq<Character>): (r: seq<Values>)
    ensures |r| == |characters|
  {
    seq(|characters|, i requires 0 <= i < |characters| => CharacterValues(characters[i]))
  }

  function CharacterList(characters: seq<Character>): Values {
    Many(RowsOf(Characters(characters)), Done)
  }

  /** The loop over the equipped items. */
  method PackItems(p: CRosePacket, items: seq<nat>)
    requires p.Sized() && |items| == EQUIPPED && Typed(Items(EQUIPPED), ItemValues(items))
    modifies p, p.buffer
    ensures p.State() == WriteAll(old(p.State()), Scalars(Items(EQUIPPED), ItemValues(items)))
  {
    hide Write, WriteAll, Scalars, Typed;
    ghost var all := WriteAll(p.State(), Scalars(Items(EQUIPPED), ItemValues(items)));
    assert items[0..] == items;
    for i := 0 to EQUIPPED
      invariant Typed(Items(EQUIPPED - i), ItemValues(items[i..]))
      invariant WriteAll(p.State(), Scalars(Items(EQUIPPED - i), ItemValues(items[i..]))) == all
    {
      assert items[i..][1..] == items[i + 1..];
      WriteNumber(p.State(), 4, Items(EQUIPPED - i - 1), items[i], ItemValues(items[i + 1..]));
      p.WriteNext(4, items[i]);
    }
    WriteEnd(p.State());
  }

  method PackCharacter(p: CRosePacket, c: Character)
    requires p.Sized() && |c.items| == EQUIPPED && Typed(CHARACTER, CharacterValues(c))
    modifies p, p.buffer
    ensures p.State() == WriteAll(old(p.State()), Scalars(CHARACTER, CharacterValues(c)))
  {
    hide Write, WriteAll, Scalars, Typed, Items, ItemValues;
    ghost var v1 := StandingValues(c);
    ghost var v2 := Num(c.job, v1);
    ghost var v3 := Num(c.level, v2);
    WriteText(p.State(), Number(1, Number(2, Number(2, STANDING))), c.name, Num(c.race, v3));
    p.WriteString(c.name);
    WriteNumber(p.State(), 1, Number(2, Number(2, STANDING)), c.race, v3);
    p.WriteNext(1, c.race);
    WriteNumber(p.State(), 2, Number(2, STANDING), c.level, v2);
    p.WriteNext(2, c.level);
    WriteNumber(p.State(), 2, STANDING, c.job, v1);
    p.WriteNext(2, c.job);
    WriteNumber(p.State(), 4, Number(1, LOOKS), c.deleteTime, Num(c.platinum, LooksValues(c)));
    p.WriteNext(4, c.deleteTime);
    WriteNumber(p.State(), 1, LOOKS, c.platinum, LooksValues(c));
    p.WriteNext(1, c.platinum);
    WriteNumber(p.State(), 4, Number(4, Items(EQUIPPED)), c.face, Num(c.hair, ItemValues(c.items)));
    p.WriteNext(4, c.face);
    WriteNumber(p.State(), 4, Items(EQUIPPED), c.hair, ItemValues(c.items));
    p.WriteNext(4, c.hair);
    PackItems(p, c.items);
  }

  predicate Equipped(characters: seq<Character>) {
    forall i | 0 <= i < |characters| :: |characters[i].items| == EQUIPPED
  }

  /** SrvCharacterListReply::pack writes exactly the values its schema lists. */
  method PackCharacterList(p: CRosePacket, characters: seq<Character>)
    requires p.Sized() && Equipped(characters) && Typed(CHARACTER_LIST, CharacterList(characters))
    modifies p, p.buffer
    ensures p.State() == WriteAll(old(p.State()), Scalars(CHARACTER_LIST, CharacterList(characters)))
  {
    hide Write, WriteAll, Scalars, RowScalars, Typed, AllTyped, RowsOf, CharacterValues;
    ghost var vs := Characters(characters);
    WriteCounted(p.State(), CHARACTER, vs);
    p.WriteNext(1, |characters|);
    ghost var all := WriteAll(p.State(), RowScalars(CHARACTER, RowsOf(vs)));
    for i := 0 to |characters|
      invariant AllTyped(CHARACTER, RowsOf(vs[i..]))
      invariant WriteAll(p.State(), RowScalars(CHARACTER, RowsOf(vs[i..]))) == all
    {
      WriteRow(p.State(), CHARACTER, vs, i);
      PackCharacter(p, characters[i]);
    }
    WriteNoRows(p.State(), CHARACTER, vs[|characters|..]);
  }

  /** Items read so far, followed by the rest. */
  function ItemsThen(items: seq<nat>, rest: Values): Values {
    if |items| == 0 then rest else Num(items[0], ItemsThen(items[1..], rest))
  }

  lemma {:induction false} ItemsThenOne(items: seq<nat>, item: nat, rest: Values)
    ensures ItemsThen(items + [item], rest) == ItemsThen(items, Num(item, rest))
    decreases |items|
  {
    if |items| == 0 {
      assert (items + [item])[1..] == [];
      assert ItemsThen([], rest) == rest;
    } else {
      ItemsThenOne(items[1..], item, rest);
      assert (items + [item])[1..] == items[1..] + [item];
    }
  }

  lemma {:induction false} ItemsThenDone(items: seq<nat>)
    ensures ItemsThen(items, Done) == ItemValues(items)
  {
    if |items| > 0 {
      ItemsThenDone(items[1..]);
    }
  }

  method ParseItems(p: CRosePacket) returns (items: seq<nat>)
    requires p.Sized()
    modifies p
    ensures |items| == EQUIPPED && p.size == old(p.size)
    ensures (ItemValues(items), p.current) == ReadValues(Items(EQUIPPED), p.buffer[..], old(p.current))
  {
    hide Read, ReadValues;
    ghost var b, at := p.buffer[..], p.current;
    items := [];
    for j := 0 to EQUIPPED
      invariant |items| == j && p.size == old(p.size)
      invariant ReadValues(Items(EQUIPPED), b, at) ==
        (ItemsThen(items, ReadValues(Items(EQUIPPED - j), b, p.current).0),
         ReadValues(Items(EQUIPPED - j), b, p.current).1)
    {
      ReadNumber(4, Items(EQUIPPED - j - 1), b, p.current);
      var item := p.ReadNext(4);
      ItemsThenOne(items, item, ReadValues(Items(EQUIPPED - j - 1), b, p.current).0);
      items := items + [item];
    }
    ReadEnd(b, p.current);
    ItemsThenDone(items);
  }

  method ParseCharacter(p: CRosePacket) returns (c: Character)
    requires p.Sized()
    modifies p
    ensures |c.items| == EQUIPPED && p.size == old(p.size)
    ensures (CharacterValues(c), p.current) == ReadValues(CHARACTER, p.buffer[..], old(p.current))
  {
    hide Read, ReadText, ReadValues, Items, ItemValues;
    ghost var b := p.buffer[..];
    ReadTextField(Number(1, Number(2, Number(2, STANDING))), b, p.current);
    var name := p.ReadString();
    ReadNumber(1, Number(2, Number(2, STANDING)), b, p.current);
    var race := p.ReadNext(1);
    ReadNumber(2, Number(2, STANDING), b, p.current);
    var level := p.ReadNext(2);
    ReadNumber(2, STANDING, b, p.current);
    var job := p.ReadNext(2);
    ReadNumber(4, Number(1, LOOKS), b, p.current);
    var deleteTime := p.ReadNext(4);
    ReadNumber(1, LOOKS, b, p.current);
    var platinum := p.ReadNext(1);
    ReadNumber(4, Number(4, Items(EQUIPPED)), b, p.current);
    var face := p.ReadNext(4);
    ReadNumber(4, Items(EQUIPPED), b, p.current);
    var hair := p.ReadNext(4);
    var items := ParseItems(p);
    c := Character(name, race, level, job, deleteTime, platinum, face, hair, items);
  }

  /**
    The constructor of SrvCharacterListReply reads exactly what the schema describes, from any bytes; it throws
    when the packet is of another type.
   */
  method ParseCharacterList(p: CRosePacket) returns (reply: Option<seq<Character>>)
    requires p.Sized()
    modifies p
    ensures reply.Some? <==> old(p.kind) == PAKCC_CHAR_LIST_REPLY
    ensures reply.Some? ==> Equipped(reply.value)
    ensures reply.Some? ==>
      (CharacterList(reply.value), p.current) == ReadValues(CHARACTER_LIST, p.buffer[..], old(p.current))
  {
    hide Read, ReadValues, ReadRows, Prepend, CharacterValues;
    if p.kind != PAKCC_CHAR_LIST_REPLY {
      return None;
    }
    ghost var b, at := p.buffer[..], p.current;
    var count := p.ReadNext(1);
    ghost var first := p.current;
    var characters := [];
    NothingPrepended(ReadRows(CHARACTER, count, b, first).0);
    assert Characters(characters) == [];
    for i := 0 to count
      invariant Equipped(characters)
      invariant ReadRows(CHARACTER, count, b, first) ==
        (Prepend(Characters(characters), ReadRows(CHARACTER, count - i, b, p.current).0),
         ReadRows(CHARACTER, count - i, b, p.current).1)
    {
      ghost var before := p.current;
      var c := ParseCharacter(p);
      ReadFirstRow(CHARACTER, b, before, count - i, Characters(characters), CharacterValues(c), p.current);
      assert Characters(characters + [c]) == Characters(characters) + [CharacterValues(c)];
      characters := characters + [c];
    }
    ReadCounted(CHARACTER, b, at, count, first, Characters(characters), p.current);
    reply := Some(characters);
  }

  lemma {:induction false} ItemsDetermine(items: seq<nat>, items': seq<nat>)
    requires ItemValues(items) == ItemValues(items')
    ensures items == items'
  {
    if |items| > 0 && |items'| > 0 {
      ItemsDetermine(items[1..], items'[1..]);
      assert items == [items[0]] + items[1..] && items' == [items'[0]] + items'[1..];
    }
  }

  lemma CharactersDetermine(cs: seq<Character>, cs': seq<Character>)
    requires CharacterList(cs) == CharacterList(cs')
    ensures cs == cs'
  {
    hide RowsOf, ItemValues;
    var vs, ws := Characters(cs), Characters(cs');
    RowsDetermine(vs, ws);
    forall i | 0 <= i < |cs|
      ensures cs[i] == cs'[i]
    {
      assert vs[i] == ws[i];
      ItemsDetermine(cs[i].items, cs'[i].items);
    }
  }

  /** No zero in a name. */
  predicate SendableCharacters(characters: seq<Character>) {
    forall i | 0 <= i < |characters| :: NulFree(characters[i].name)
  }

  /** The level, the job and the time to deletion alone take eight bytes. */
  lemma CharacterTakesSpace(c: Character)
    requires Typed(CHARACTER, CharacterValues(c))
    ensures |Encoded(CHARACTER, CharacterValues(c))| >= 8
  {
    hide Little, Pow256, Items, ItemValues;
    var v1 := StandingValues(c);
    var v2 := Num(c.job, v1);
    var v3 := Num(c.level, v2);
    var v4 := Num(c.race, v3);
    assert Typed(Number(1, Number(2, Number(2, STANDING))), v4);
    assert Typed(Number(2, Number(2, STANDING)), v3);
    assert Typed(Number(2, STANDING), v2);
    assert Typed(STANDING, v1);
    assert |Encoded(STANDING, v1)| >= 4;
    assert |Encoded(Number(2, STANDING), v2)| >= 6;
    assert |Encoded(Number(2, Number(2, STANDING)), v3)| >= 8;
    assert |Encoded(Number(1, Number(2, Number(2, STANDING))), v4)| >= 8;
  }

  lemma {:induction false} RowsTakeSpace(characters: seq<Character>, vs: seq<Values>)
    requires vs == Characters(characters) && AllTyped(CHARACTER, RowsOf(vs))
    ensures |EncodedRows(CHARACTER, RowsOf(vs))| >= 8 * |characters|
    decreases |characters|
  {
    hide Typed, Encoded, CharacterValues;
    if |characters| > 0 {
      CharacterTakesSpace(characters[0]);
      assert vs[1..] == Characters(characters[1..]);
      RowsTakeSpace(characters[1..], vs[1..]);
    }
  }

  /** A packet has no room for 256 characters. */
  lemma FewCharactersFit(characters: seq<Character>)
    requires Typed(CHARACTER_LIST, CharacterList(characters))
    requires HEADER + |Encoded(CHARACTER_LIST, CharacterList(characters))| < CAPACITY
    ensures |characters| < 256
  {
    hide AllTyped, EncodedRows, RowsOf, CharacterValues;
    RowsTakeSpace(characters, Characters(characters));
  }

  lemma {:induction false} ItemsClean(items: seq<nat>)
    ensures Clean(ItemValues(items))
  {
    if |items| > 0 {
      ItemsClean(items[1..]);
    }
  }

  lemma CharacterClean(c: Character)
    ensures Clean(CharacterValues(c)) <==> NulFree(c.name)
  {
    hide NulFree, ItemValues;
    ItemsClean(c.items);
    var v1 := Num(c.hair, ItemValues(c.items));
    assert Clean(v1);
    assert Clean(LooksValues(c));
    var v2 := Num(c.platinum, LooksValues(c));
    assert Clean(v2);
    assert Clean(StandingValues(c));
    var v3 := Num(c.job, StandingValues(c));
    assert Clean(v3);
    var v4 := Num(c.level, v3);
    assert Clean(v4);
    assert Clean(Num(c.race, v4));
  }

  lemma CharactersClean(characters: seq<Character>)
    ensures Clean(CharacterList(characters)) <==> |characters| < 256 && SendableCharacters(characters)
  {
    hide RowsOf, AllClean, NulFree, Length, CharacterValues;
    var vs := Characters(characters);
    RowCount(vs);
    RowsClean(vs);
    forall i | 0 <= i < |characters|
      ensures Clean(vs[i]) <==> NulFree(characters[i].name)
    {
      CharacterClean(characters[i]);
    }
  }

  /** What is read from a packed character list is that list exactly when the list is sendable. */
  lemma CharacterListRoundTrip(buffer: seq<Byte>, kind: nat, crc: nat, characters: seq<Character>,
                               r: seq<Byte>, characters': seq<Character>)
    requires |buffer| == CAPACITY && kind < 0x1_0000 && crc < 0x1_0000
    requires var vals := CharacterList(characters);
      Typed(CHARACTER_LIST, vals) && HEADER + |Encoded(CHARACTER_LIST, vals)| < CAPACITY
    requires var p := Written(buffer, kind, crc, CHARACTER_LIST, CharacterList(characters));
      |r| == |p.buffer| == CAPACITY && p.size < CAPACITY && r[..p.size] == p.buffer[..p.size]
    requires ReadValues(CHARACTER_LIST, r, HEADER).0 == CharacterList(characters')
    ensures characters' == characters <==> SendableCharacters(characters)
  {
    hide Written, Encoded, Typed, Clean, ReadValues, CharacterList, Wire, Valid, SendableCharacters;
    ReadsBackIffClean(buffer, kind, crc, CHARACTER_LIST, CharacterList(characters), r);
    WireArrives(Written(buffer, kind, crc, CHARACTER_LIST, CharacterList(characters)), r);
    CharactersClean(characters);
    FewCharactersFit(characters);
    if SendableCharacters(characters) {
      CharactersDetermine(characters, characters');
    }
  }

  /** The bytes of one character: name, zero, the numbers in the order of pack, then the items. */
  lemma OneCharacter(c: Character)
    requires Typed(CHARACTER, CharacterValues(c)) && |c.items| == EQUIPPED
    ensures Encoded(CHARACTER, CharacterValues(c)) ==
      c.name + [0] + (Little(1, c.race) + (Little(2, c.level) + (Little(2, c.job) + (Little(4, c.deleteTime)
      + (Little(1, c.platinum) + (Little(4, c.face) + (Little(4, c.hair) + ItemBytes(c.items))))))))
  {
    hide Little, Pow256, Items, ItemValues, ItemBytes;
    var v0 := ItemValues(c.items);
    var v1 := Num(c.hair, v0);
    var v3 := Num(c.platinum, LooksValues(c));
    var v5 := Num(c.job, StandingValues(c));
    var v6 := Num(c.level, v5);
    var v7 := Num(c.race, v6);
    assert Typed(Number(1, Number(2, Number(2, STANDING))), v7) && Typed(Number(2, Number(2, STANDING)), v6);
    assert Typed(Number(2, STANDING), v5) && Typed(STANDING, StandingValues(c));
    assert Typed(Number(1, LOOKS), v3) && Typed(LOOKS, LooksValues(c)) && Typed(Number(4, Items(EQUIPPED)), v1);
    ItemsEncoded(EQUIPPED, c.items);
    assert Encoded(Number(4, Items(EQUIPPED)), v1) == Little(4, c.hair) + ItemBytes(c.items);
    assert Encoded(LOOKS, LooksValues(c)) == Little(4, c.face) + Encoded(Number(4, Items(EQUIPPED)), v1);
    assert Encoded(Number(1, LOOKS), v3) == Little(1, c.platinum) + Encoded(LOOKS, LooksValues(c));
    assert Encoded(STANDING, StandingValues(c)) == Little(4, c.deleteTime) + Encoded(Number(1, LOOKS), v3);
    assert Encoded(Number(2, STANDING), v5) == Little(2, c.job) + Encoded(STANDING, StandingValues(c));
    assert Encoded(Number(2, Number(2, STANDING)), v6) == Little(2, c.level) + Encoded(Number(2, STANDING), v5);
  }

  /** The words of the items, one after the other. */
  function ItemBytes(items: seq<nat>): seq<Byte> {
    if |items| == 0 then [] else Little(4, items[0]) + ItemBytes(items[1..])
  }

  lemma {:induction false} ItemsEncoded(n: nat, items: seq<nat>)
    requires |items| == n && Typed(Items(n), ItemValues(items))
    ensures Encoded(Items(n), ItemValues(items)) == ItemBytes(items)
  {
    hide Little, Pow256;
    if n > 0 {
      ItemsEncoded(n - 1, items[1..]);
    }
  }
}
