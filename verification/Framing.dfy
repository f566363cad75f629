/**
  Receiving on the client path: a fixed buffer is filled by partial reads, first the six
  header bytes, then the rest of the packet, and every completed packet goes to the receive
  queue. Read completions and packet handling are steps that may come in any order.
 */
module Framing {
  import opened Checksum
  import opened HeaderLayout
  import opened Cipher
  import PacketCodec

  const MAX_PACKET := 0x7FF
  const HEADER := 6

  /** The receiving half of a connection; `handled` records what HandlePacket has seen. */
  datatype Link = Link(
    buffer: seq<Byte>, offset: nat, size: nat, active: bool,
    queue: seq<seq<Byte>>, handled: seq<seq<Byte>>)

  predicate ValidLink(link: Link) {
    |link.buffer| == MAX_PACKET && link.offset < link.size <= MAX_PACKET && HEADER <= link.size
  }

  /** CRosePacket::size: the little-endian value in bytes 0 and 1. */
  function SizeField(low: Byte, high: Byte): nat {
    Nat16((low as bv16) | (high as bv16 << 8))
  }

  lemma SizeFieldReadsBack(v: bv16)
    ensures SizeField(Low(v), High(v)) == Nat16(v)
  {
    assert ((Low(v) as bv16) | (High(v) as bv16 << 8)) == v;
  }

  /** The size field written by an accepting decoder stays inside the buffer. */
  lemma AcceptedSizeFits(t: Table, b: seq<Byte>)
    requires Decodable(Client, b) && Accepts(t, Client, b)
    ensures var d := DecodeBody(t, Client, b); |d| == |b| >= 6 && SizeField(d[0], d[1]) <= |b|
  {
    hide WordOf, BodyLength, Accepts, DecodeBody, SizeField, Low, High, PlainBody, HeadCommand, Nat16;
    var head := WordOf(b);
    var length := BodyLength(Client, head);
    DecodeBodyIs(t, Client, b, head, BodyEnd(Nat16(length)));
    SizeFieldReadsBack(length);
    assert PlainHead(length, HeadCommand(head))[..2] == [Low(length), High(length)];
  }

  function Reset(link: Link): Link {
    link.(offset := 0, size := HEADER)
  }

  function Aborted(link: Link): Link {
    Reset(link).(active := false)
  }

  function Filled(link: Link, data: seq<Byte>): Link
    requires ValidLink(link) && link.offset + |data| <= link.size
  {
    var b := link.buffer[..link.offset] + data + link.buffer[link.offset + |data|..];
    link.(buffer := b, offset := link.offset + |data|)
  }

  /** The header phase of OnReceived. */
  function HeaderDone(t: Table, link: Link): Link
    requires |link.buffer| == MAX_PACKET
  {
    var (b, size) := DecodeHeader(t, Client, link.buffer);
    link.(buffer := b, size := size)
  }

  /** The body phase of OnReceived. */
  function BodyDone(t: Table, link: Link): Link
    requires |link.buffer| == MAX_PACKET && Decodable(Client, link.buffer)
  {
    var b := DecodeBody(t, Client, link.buffer);
    if Accepts(t, Client, link.buffer) then
      AcceptedSizeFits(t, link.buffer);
      Reset(link.(buffer := b, queue := link.queue + [b[..SizeField(b[0], b[1])]]))
    else
      Aborted(link.(buffer := b))
  }

  /** OnReceived, once the wanted number of bytes is there. */
  function Received(t: Table, link: Link): Link
    requires Readable(t, link)
  {
    if link.size == HEADER then
      var next := HeaderDone(t, link);
      if next.size < HEADER || next.size > MAX_PACKET then Aborted(next)
      else if next.size > HEADER then next
      else BodyDone(t, next)
    else
      BodyDone(t, link)
  }

  /** The length that decodeBody works with stays inside the buffer. */
  predicate Readable(t: Table, link: Link) {
    && |link.buffer| == MAX_PACKET
    && if link.size == HEADER then
         var next := HeaderDone(t, link);
         next.size == HEADER ==> Decodable(Client, next.buffer)
       else Decodable(Client, link.buffer)
  }

  /** The completion handler of async_read: a short read ends in try_again and is resumed. */
  function Completed(t: Table, link: Link, data: seq<Byte>): Link
    requires ValidLink(link) && link.offset + |data| <= link.size
    requires link.offset + |data| == link.size ==> Readable(t, Filled(link, data))
  {
    var filled := Filled(link, data);
    if filled.offset < filled.size then filled else Received(t, filled)
  }

  /** The handler that OnReceived dispatches: take one packet off the queue. */
  function Dispatched(link: Link, accepted: bool): Link {
    if link.active && |link.queue| > 0 then
      link.(queue := link.queue[1..], handled := link.handled + [link.queue[0]], active := accepted)
    else
      link
  }

  // ---- Runs --------------------------------------------------------------------------------

  datatype Event = Read(n: nat) | Handle(accepted: bool)

  /** A link and the bytes of the peer it has not read yet. */
  datatype Session = Session(link: Link, wire: seq<Byte>)

  predicate Possible(t: Table, s: Session, e: Event) {
    match e
    case Read(n) =>
      && s.link.active && ValidLink(s.link) && n <= |s.wire| && s.link.offset + n <= s.link.size
      && (s.link.offset + n == s.link.size ==> Readable(t, Filled(s.link, s.wire[..n])))
    case Handle(_) => true
  }

  function Step(t: Table, s: Session, e: Event): Session
    requires Possible(t, s, e)
  {
    match e
    case Read(n) => Session(Completed(t, s.link, s.wire[..n]), s.wire[n..])
    case Handle(accepted) => s.(link := Dispatched(s.link, accepted))
  }

  /** What the operating system may do next: deliver at most the bytes asked for. */
  predicate Offered(s: Session, e: Event) {
    e.Read? ==> s.link.active && e.n <= |s.wire| && s.link.offset + e.n <= s.link.size
  }

  predicate Packets(ps: seq<seq<Byte>>) {
    forall i | 0 <= i < |ps| :: Packet(ps[i])
  }

  /** A packet as the peer's codec puts it on the wire. */
  function OnWire(t: Table, p: seq<Byte>): (r: seq<Byte>)
    requires Packet(p)
    ensures |r| == |p| >= HEADER && |p| <= MAX_PACKET
  {
    PacketLength(p);
    Encode(t, Client, p)
  }

  function Wire(t: Table, ps: seq<seq<Byte>>): seq<Byte>
    requires Packets(ps)
  {
    if |ps| == 0 then [] else OnWire(t, ps[0]) + Wire(t, ps[1..])
  }

  function Deliveries(ps: seq<seq<Byte>>): (r: seq<seq<Byte>>)
    requires Packets(ps)
    ensures |r| == |ps|
  {
    seq(|ps|, i requires 0 <= i < |ps| => assert Packet(ps[i]); Delivered(Client, ps[i]))
  }

  /** Between reads, the buffer holds a raw header prefix or a decoded header and a raw body prefix. */
  ghost predicate MidPacket(t: Table, p: seq<Byte>, link: Link)
    requires Packet(p) && ValidLink(link)
  {
    var e := OnWire(t, p);
    if link.size == HEADER then
      link.buffer[..link.offset] == e[..link.offset]
    else
      && link.size == |p| && HEADER <= link.offset
      && link.buffer[..link.offset] == Bytes(OutHead(Client, p)) + e[5..link.offset]
  }

  /** k packets are through; of the next one, `offset` bytes have been read. */
  ghost predicate Progress(t: Table, ps: seq<seq<Byte>>, k: nat, s: Session)
    requires Packets(ps)
  {
    && k <= |ps| && ValidLink(s.link)
    && s.link.handled + s.link.queue == Deliveries(ps)[..k]
    && if k == |ps| then s.link.offset == 0 && s.link.size == HEADER && s.wire == []
       else
         && MidPacket(t, ps[k], s.link)
         && s.wire == OnWire(t, ps[k])[s.link.offset..] + Wire(t, ps[k + 1..])
  }

  // ---- One packet ----------------------------------------------------------------------------

  /** The raw header in the buffer turns into the decoded header, whatever follows it. */
  lemma HeaderPhase(t: Table, p: seq<Byte>, b: seq<Byte>)
    requires Packet(p) && |b| >= HEADER
    requires b[..HEADER] == OnWire(t, p)[..HEADER]
    ensures var (c, size) := DecodeHeader(t, Client, b);
      size == |p| && c == Bytes(OutHead(Client, p)) + b[5..]
  {
    hide Encode, DecodedHead, WordOf, OutHead, Bytes, HeadSize, Packet, Nat11;
    PacketLength(p);
    HeaderRoundTrip(t, Client, p);
    var first := OnWire(t, p)[..HEADER];
    assert b[..5] == b[..HEADER][..5] == first[..5];
    WordOfPrefix(b, first);
    var head := DecodedHead(t, Client, WordOf(b));
    assert first[5..] == OnWire(t, p)[5..HEADER];
    SamePrefix(Bytes(head), Bytes(OutHead(Client, p)), first[5..]);
  }

  /** Decoding a body does not look beyond its end. */
  lemma DecodeIgnoresRest(t: Table, r: seq<Byte>, rest: seq<Byte>)
    requires Decodable(Client, r) && |r| >= 6 && Nat16(BodyLength(Client, WordOf(r))) == |r|
    ensures Decodable(Client, r + rest)
    ensures Accepts(t, Client, r + rest) == Accepts(t, Client, r)
    ensures DecodeBody(t, Client, r + rest) == DecodeBody(t, Client, r) + rest
  {
    hide *;
    var b, n, w := r + rest, |r|, WordOf(r);
    assert b[..5] == r[..5];
    WordOfPrefix(b, r);
    DecodableFrom(Client, b, w, n);
    DecodeBodyIs(t, Client, r, w, n);
    DecodeBodyIs(t, Client, b, w, n);
    assert b[6..n] == r[6..n];
    assert b[..4] == r[..4] && b[4..6] == r[4..6] && b[n..] == rest && r[n..] == [];
  }

  lemma PacketSizeField(p: seq<Byte>)
    requires Packet(p)
    ensures SizeField(p[0], p[1]) == |p|
  {
    hide SizeField, Low, High, Field11, Nat11;
    var f := Field11(p[0], p[1]);
    Field11RoundTrip(p[0], p[1]);
    SizeFieldReadsBack(f as bv16);
    Widen(f);
  }

  lemma DeliveredSize(p: seq<Byte>)
    requires Packet(p)
    ensures |Delivered(Client, p)| == |p| >= HEADER
    ensures Delivered(Client, p)[0] == p[0] && Delivered(Client, p)[1] == p[1]
  {
    hide Field11, OutHead, HeadByte, Crc, HeadChecksum, Nat11;
  }

  /** A decoded header and the raw body turn into the delivered packet. */
  lemma BodyPhase(t: Table, p: seq<Byte>, link: Link)
    requires Packet(p) && |link.buffer| == MAX_PACKET
    requires link.buffer[..|p|] == Bytes(OutHead(Client, p)) + OnWire(t, p)[5..]
    ensures Decodable(Client, link.buffer)
    ensures var next := BodyDone(t, link);
      && next == Reset(link.(buffer := next.buffer, queue := link.queue + [Delivered(Client, p)]))
      && |next.buffer| == MAX_PACKET
  {
    hide Decodable, Accepts, DecodeBody, Packet, Delivered, Bytes, OutHead, Encode, WordOf, SizeField;
    hide BodyLength, Nat16;
    PacketLength(p);
    var r, rest := link.buffer[..|p|], link.buffer[|p|..];
    assert link.buffer == r + rest;
    BodyRoundTrip(t, Client, p);
    ReceivedLength(t, p, r);
    DecodeIgnoresRest(t, r, rest);
    var d := Delivered(Client, p);
    DeliveredSize(p);
    PacketSizeField(p);
    assert (d + rest)[..|p|] == d;
  }

  lemma ReceivedLength(t: Table, p: seq<Byte>, r: seq<Byte>)
    requires Packet(p) && r == Bytes(OutHead(Client, p)) + OnWire(t, p)[5..]
    ensures |r| == |p| && Nat16(BodyLength(Client, WordOf(r))) == |r|
  {
    hide Packet, Bytes, OutHead, Encode, WordOf, BodyLength, Nat16;
    PacketLength(p);
    JoinOfBytes(OutHead(Client, p), OnWire(t, p)[5..]);
    OutHeadParts(Client, p);
  }

  lemma SamePrefix(x: seq<Byte>, y: seq<Byte>, z: seq<Byte>)
    requires |x| == |y| && x + z == y + z
    ensures x == y
  {
    assert x == (x + z)[..|x|];
    assert y == (y + z)[..|y|];
  }

  // ---- Steps ---------------------------------------------------------------------------------

  lemma FilledPrefix(link: Link, data: seq<Byte>)
    requires ValidLink(link) && link.offset + |data| <= link.size
    ensures var f := Filled(link, data);
      |f.buffer| == MAX_PACKET && f.buffer[..f.offset] == link.buffer[..link.offset] + data
  {}

  /** Reading n more bytes extends what is known of the packet by those n bytes. */
  lemma ReadExtends(t: Table, p: seq<Byte>, link: Link, n: nat)
    requires Packet(p) && ValidLink(link) && MidPacket(t, p, link) && link.offset + n <= link.size
    ensures var f := Filled(link, OnWire(t, p)[link.offset..link.offset + n]);
      && |f.buffer| == MAX_PACKET
      && f.buffer[..f.offset] == (if link.size == HEADER then OnWire(t, p)[..f.offset]
                                  else Bytes(OutHead(Client, p)) + OnWire(t, p)[5..f.offset])
  {
    hide OnWire, Packet, Bytes, OutHead;
    var e := OnWire(t, p);
    var data := e[link.offset..link.offset + n];
    FilledPrefix(link, data);
    assert e[..link.offset] + data == e[..link.offset + n];
    if link.size != HEADER {
      assert e[5..link.offset] + data == e[5..link.offset + n];
    }
  }

  /** The packet is complete: it is queued and the link waits for the next header. */
  ghost predicate PacketDone(p: seq<Byte>, before: Link, after: Link)
    requires |p| >= HEADER
  {
    && after == Reset(before.(buffer := after.buffer, queue := before.queue + [Delivered(Client, p)]))
    && |after.buffer| == MAX_PACKET
  }

  /** Completing the header read either starts the body phase or, for a bare header, ends the packet. */
  lemma HeaderCompletes(t: Table, p: seq<Byte>, f: Link)
    requires Packet(p) && |p| >= HEADER && |f.buffer| == MAX_PACKET && f.size == f.offset == HEADER
    requires f.buffer[..HEADER] == OnWire(t, p)[..HEADER]
    ensures Readable(t, f)
    ensures if |p| == HEADER then PacketDone(p, f, Received(t, f))
            else
              var next := Received(t, f);
              && next == f.(buffer := next.buffer, size := |p|)
              && ValidLink(next) && MidPacket(t, p, next)
  {
    hide OnWire, Packet, DecodeHeader, Bytes, OutHead, BodyDone, Decodable, Delivered;
    HeaderPhase(t, p, f.buffer);
    var next := HeaderDone(t, f);
    var e := OnWire(t, p);
    var head := Bytes(OutHead(Client, p));
    assert f.buffer[5..][..1] == f.buffer[..HEADER][5..] == e[5..HEADER];
    assert next.buffer[..HEADER] == head + e[5..HEADER];
    if |p| == HEADER {
      assert e[5..] == e[5..HEADER];
      BodyPhase(t, p, next);
    }
  }

  /** Completing the body read ends the packet. */
  lemma BodyCompletes(t: Table, p: seq<Byte>, f: Link)
    requires Packet(p) && |p| >= HEADER && |f.buffer| == MAX_PACKET && f.size == f.offset == |p| > HEADER
    requires f.buffer[..|p|] == Bytes(OutHead(Client, p)) + OnWire(t, p)[5..|p|]
    ensures Readable(t, f) && PacketDone(p, f, Received(t, f))
  {
    hide OnWire, Packet, Bytes, OutHead, BodyDone, Decodable, Delivered;
    assert OnWire(t, p)[5..|p|] == OnWire(t, p)[5..];
    BodyPhase(t, p, f);
  }

  lemma {:induction false} WireHead(t: Table, ps: seq<seq<Byte>>, k: nat)
    requires Packets(ps) && k < |ps|
    ensures Wire(t, ps[k..]) == OnWire(t, ps[k]) + Wire(t, ps[k + 1..])
  {
    hide OnWire, Packet;
    assert ps[k..][1..] == ps[k + 1..];
  }

  /** The next packet has not been touched yet. */
  lemma FreshPacket(t: Table, ps: seq<seq<Byte>>, k: nat, s: Session)
    requires Packets(ps) && k <= |ps| && |s.link.buffer| == MAX_PACKET
    requires s.link.offset == 0 && s.link.size == HEADER
    requires s.link.handled + s.link.queue == Deliveries(ps)[..k] && s.wire == Wire(t, ps[k..])
    ensures Progress(t, ps, k, s)
  {
    hide OnWire, Packet, Deliveries;
    if k < |ps| {
      WireHead(t, ps, k);
    }
  }

  lemma DeliveriesNext(ps: seq<seq<Byte>>, k: nat)
    requires Packets(ps) && k < |ps| && |ps[k]| >= HEADER
    ensures Deliveries(ps)[..k + 1] == Deliveries(ps)[..k] + [Delivered(Client, ps[k])]
  {
    hide Delivered, Packet;
  }

  lemma PacketFinished(t: Table, ps: seq<seq<Byte>>, k: nat, s: Session, after: Session)
    requires Packets(ps) && k < |ps| && |ps[k]| >= HEADER
    requires s.link.handled + s.link.queue == Deliveries(ps)[..k]
    requires PacketDone(ps[k], s.link, after.link) && after.wire == Wire(t, ps[k + 1..])
    ensures Progress(t, ps, k + 1, after) && after.link.active == s.link.active
  {
    hide Wire, Deliveries, Packet, Delivered, Progress;
    DeliveriesNext(ps, k);
    FreshPacket(t, ps, k + 1, after);
  }

  /** Where the wire is cut by a read. */
  lemma WireSplits(e: seq<Byte>, more: seq<Byte>, offset: nat, n: nat)
    requires offset + n <= |e|
    ensures (e[offset..] + more)[..n] == e[offset..offset + n]
    ensures (e[offset..] + more)[n..] == e[offset + n..] + more
  {}

  lemma PacketOfSeq(ps: seq<seq<Byte>>, k: nat)
    requires Packets(ps) && k < |ps|
    ensures Packet(ps[k]) && HEADER <= |ps[k]| <= MAX_PACKET
  {
    hide Packet;
    PacketLength(ps[k]);
  }

  /** What is in the buffer and what is left on the wire after n more bytes of packet k. */
  lemma ReadFacts(t: Table, ps: seq<seq<Byte>>, k: nat, s: Session, n: nat)
    requires Packets(ps) && k < |ps| && Progress(t, ps, k, s) && Offered(s, Read(n))
    ensures Packet(ps[k]) && HEADER <= |ps[k]| <= MAX_PACKET
    ensures var e, f := OnWire(t, ps[k]), Filled(s.link, s.wire[..n]);
      && |f.buffer| == MAX_PACKET && f.offset <= |e| && (f.size == HEADER || f.size == |ps[k]|)
      && f.buffer[..f.offset] == (if f.size == HEADER then e[..f.offset]
                                  else Bytes(OutHead(Client, ps[k])) + e[5..f.offset])
      && s.wire[n..] == e[f.offset..] + Wire(t, ps[k + 1..])
  {
    hide OnWire, Packet, Wire, Deliveries, Bytes, OutHead;
    var p := ps[k];
    PacketOfSeq(ps, k);
    var e, o := OnWire(t, p), s.link.offset;
    WireSplits(e, Wire(t, ps[k + 1..]), o, n);
    ReadExtends(t, p, s.link, n);
    assert s.wire[..n] == e[o..o + n];
  }

  lemma PartialRead(t: Table, ps: seq<seq<Byte>>, k: nat, s: Session, n: nat)
    requires Packets(ps) && k < |ps| && Progress(t, ps, k, s) && Offered(s, Read(n))
    requires s.link.offset + n < s.link.size
    ensures Progress(t, ps, k, Session(Filled(s.link, s.wire[..n]), s.wire[n..]))
  {
    hide OnWire, Packet, Wire, Deliveries, Bytes, OutHead;
    ReadFacts(t, ps, k, s, n);
  }

  lemma CompleteRead(t: Table, ps: seq<seq<Byte>>, k: nat, s: Session, n: nat) returns (k': nat)
    requires Packets(ps) && k < |ps| && Progress(t, ps, k, s) && Offered(s, Read(n))
    requires s.link.offset + n == s.link.size
    ensures var f := Filled(s.link, s.wire[..n]);
      && Readable(t, f) && Progress(t, ps, k', Session(Received(t, f), s.wire[n..]))
      && Received(t, f).active == s.link.active
  {
    hide OnWire, Packet, Wire, Deliveries, Bytes, OutHead, Readable, Received, Delivered, PacketDone;
    ReadFacts(t, ps, k, s, n);
    var p, e, f := ps[k], OnWire(t, ps[k]), Filled(s.link, s.wire[..n]);
    k' := k + 1;
    if f.size == HEADER {
      HeaderCompletes(t, p, f);
      if |p| > HEADER {
        k' := k;
        return;
      }
    } else {
      BodyCompletes(t, p, f);
    }
    assert e[f.offset..] == [];
    PacketFinished(t, ps, k, Session(f, s.wire[n..]), Session(Received(t, f), s.wire[n..]));
  }

  lemma EmptyRead(t: Table, ps: seq<seq<Byte>>, s: Session, n: nat)
    requires Packets(ps) && Progress(t, ps, |ps|, s) && Offered(s, Read(n))
    ensures n == 0 && Filled(s.link, s.wire[..n]) == s.link
  {
    hide Deliveries, Wire, Packets;
    assert s.wire == [];
  }

  /** Any offered read keeps the progress invariant and never leaves the buffer. */
  lemma ReadKeepsProgress(t: Table, ps: seq<seq<Byte>>, k: nat, s: Session, n: nat) returns (k': nat)
    requires Packets(ps) && Progress(t, ps, k, s) && Offered(s, Read(n))
    ensures Possible(t, s, Read(n))
    ensures Progress(t, ps, k', Step(t, s, Read(n)))
    ensures Step(t, s, Read(n)).link.active == s.link.active
  {
    hide Packets, Progress, Readable, Received;
    ProgressBounds(t, ps, k, s);
    k' := k;
    if k == |ps| {
      EmptyRead(t, ps, s, n);
      assert s.wire[0..] == s.wire;
    } else if s.link.offset + n < s.link.size {
      PartialRead(t, ps, k, s, n);
    } else {
      k' := CompleteRead(t, ps, k, s, n);
    }
  }

  lemma ProgressBounds(t: Table, ps: seq<seq<Byte>>, k: nat, s: Session)
    requires Packets(ps) && Progress(t, ps, k, s)
    ensures k <= |ps| && ValidLink(s.link)
  {
    hide Packets, Deliveries;
  }

  lemma HandleKeepsProgress(t: Table, ps: seq<seq<Byte>>, k: nat, s: Session, accepted: bool)
    requires Packets(ps) && Progress(t, ps, k, s)
    ensures Progress(t, ps, k, Step(t, s, Handle(accepted)))
  {
    hide OnWire, Packet, Wire, Deliveries, Bytes, OutHead;
    var q := s.link.queue;
    if s.link.active && |q| > 0 {
      assert s.link.handled + [q[0]] + q[1..] == s.link.handled + q;
    }
  }

  // ---- The theorem ------------------------------------------------------------------------------

  /** Every event of the run was on offer when it happened. */
  predicate Run(t: Table, s: Session, events: seq<Event>)
    decreases |events|
  {
    |events| == 0 ||
      (Offered(s, events[0]) && Possible(t, s, events[0]) && Run(t, Step(t, s, events[0]), events[1..]))
  }

  function Last(t: Table, s: Session, events: seq<Event>): Session
    requires Run(t, s, events)
    decreases |events|
  {
    if |events| == 0 then s else Last(t, Step(t, s, events[0]), events[1..])
  }

  function Opened(buffer: seq<Byte>, wire: seq<Byte>): Session {
    Session(Link(buffer, 0, HEADER, true, [], []), wire)
  }

  predicate NeverRefused(events: seq<Event>) {
    forall i | 0 <= i < |events| :: events[i] != Handle(false)
  }

  lemma {:induction false} RunKeepsProgress(t: Table, ps: seq<seq<Byte>>, k: nat, s: Session, events: seq<Event>)
      returns (k': nat)
    requires Packets(ps) && Progress(t, ps, k, s) && Run(t, s, events)
    ensures Progress(t, ps, k', Last(t, s, events))
    ensures s.link.active && NeverRefused(events) ==> Last(t, s, events).link.active
    decreases |events|
  {
    hide Progress, Packets, Possible, Step, Completed;
    k' := k;
    if |events| > 0 {
      var e := events[0];
      var next := Step(t, s, e);
      if e.Read? {
        k' := ReadKeepsProgress(t, ps, k, s, e.n);
      } else {
        HandleKeepsProgress(t, ps, k, s, e.accepted);
        HandleActive(t, s, e.accepted);
      }
      k' := RunKeepsProgress(t, ps, k', next, events[1..]);
    }
  }

  lemma HandleActive(t: Table, s: Session, accepted: bool)
    ensures accepted && s.link.active ==> Step(t, s, Handle(accepted)).link.active
  {}

  /** As long as a packet is missing, bytes are still to come. */
  lemma UnreadBytes(t: Table, ps: seq<seq<Byte>>, k: nat, s: Session)
    requires Packets(ps) && k < |ps| && Progress(t, ps, k, s)
    ensures |s.wire| > 0
  {
    hide Wire, Deliveries, Packet, OnWire, Bytes, OutHead;
    PacketOfSeq(ps, k);
    assert |OnWire(t, ps[k])[s.link.offset..]| > 0;
  }

  /** For any way the bytes of any packets arrive, the packets come out whole and in order. */
  lemma FramingIsExact(t: Table, ps: seq<seq<Byte>>, buffer: seq<Byte>, events: seq<Event>)
    requires Packets(ps) && |buffer| == MAX_PACKET
    requires Run(t, Opened(buffer, Wire(t, ps)), events)
    ensures var s := Last(t, Opened(buffer, Wire(t, ps)), events);
      && s.link.offset < s.link.size <= MAX_PACKET
      && s.link.handled + s.link.queue <= Deliveries(ps)
      && (s.wire == [] ==> s.link.handled + s.link.queue == Deliveries(ps))
      && (NeverRefused(events) ==> s.link.active)
  {
    hide Wire, Deliveries, Packet, OnWire, Run, Last, Bytes, OutHead;
    var s0 := Opened(buffer, Wire(t, ps));
    assert ps[0..] == ps;
    FreshPacket(t, ps, 0, s0);
    var k := RunKeepsProgress(t, ps, 0, s0, events);
    var s := Last(t, s0, events);
    if k < |ps| {
      UnreadBytes(t, ps, k, s);
    }
  }

  /** In no run is an offered read undefined: decoding never reaches outside the buffer. */
  lemma OfferedIsPossible(t: Table, ps: seq<seq<Byte>>, buffer: seq<Byte>, events: seq<Event>, e: Event)
    requires Packets(ps) && |buffer| == MAX_PACKET
    requires Run(t, Opened(buffer, Wire(t, ps)), events)
    requires Offered(Last(t, Opened(buffer, Wire(t, ps)), events), e)
    ensures Possible(t, Last(t, Opened(buffer, Wire(t, ps)), events), e)
  {
    hide Wire, Deliveries, Packet, OnWire, Run, Last, Progress;
    var s0 := Opened(buffer, Wire(t, ps));
    assert ps[0..] == ps;
    FreshPacket(t, ps, 0, s0);
    var k := RunKeepsProgress(t, ps, 0, s0, events);
    if e.Read? {
      var k' := ReadKeepsProgress(t, ps, k, Last(t, s0, events), e.n);
    }
  }

  // ---- Any bytes at all -----------------------------------------------------------------------------

  /** The client's subtraction does not wrap: the body ends inside a full buffer. */
  predicate NoWrap(head: bv40) {
    HeadSize(head) >= HeadValue(head) as bv11
  }

  lemma WrapLeavesBuffer(size: bv11, value: bv3)
    ensures (size as bv16) - (value as bv16) <= 0x7FF <==> size >= value as bv11
  {}

  lemma SmallLength(v: bv16)
    ensures Nat16(v) <= 0x7FF <==> v <= 0x7FF
  {}

  /** Decoding stays inside a receive buffer exactly when the announced size is at least EncryptValue. */
  lemma DecodableIffNoWrap(b: seq<Byte>)
    requires |b| == MAX_PACKET
    ensures Decodable(Client, b) <==> NoWrap(WordOf(b))
  {
    hide WordOf, HeadSize, HeadValue, Nat16;
    var head := WordOf(b);
    WrapLeavesBuffer(HeadSize(head), HeadValue(head));
    SmallLength(BodyLength(Client, head));
  }

  /** A header that announces exactly six bytes and subtracts seven from them. */
  predicate Overruns(head: bv40) {
    HeadSize(head) == 6 && HeadValue(head) == 7
  }

  lemma BareHeaderWraps(head: bv40)
    requires Nat11(HeadSize(head)) == 6
    ensures NoWrap(head) <==> !Overruns(head)
  {
    SixIsSix(HeadSize(head));
  }

  lemma SixIsSix(size: bv11)
    ensures Nat11(size) == 6 <==> size == 6
  {}

  lemma LongNeverWraps(head: bv40)
    requires Nat11(HeadSize(head)) > 6
    ensures NoWrap(head)
  {
    SizeAbove(HeadSize(head));
  }

  lemma SizeAbove(size: bv11)
    ensures Nat11(size) > 6 <==> size > 6
  {}

  /** In the body phase the buffer starts with a decoded header that announces the wanted size. */
  ghost predicate InSync(link: Link) {
    ValidLink(link) &&
    (link.size > HEADER ==> link.offset >= HEADER && Nat11(HeadSize(WordOf(link.buffer))) == link.size)
  }

  /** The sixth byte completes a header that makes decoding leave the buffer. */
  predicate HeaderOverruns(t: Table, link: Link, data: seq<Byte>)
    requires ValidLink(link) && link.offset + |data| <= link.size
  {
    && link.size == HEADER == link.offset + |data|
    && Overruns(DecodedHead(t, Client, WordOf(Filled(link, data).buffer)))
  }

  lemma DecodedHeader(t: Table, b: seq<Byte>)
    requires |b| == MAX_PACKET
    ensures var (c, size) := DecodeHeader(t, Client, b);
      |c| == MAX_PACKET && WordOf(c) == DecodedHead(t, Client, WordOf(b)) && size == Nat11(HeadSize(WordOf(c)))
  {
    hide WordOf, Bytes, DecodedHead, HeadSize, Nat11;
    JoinOfBytes(DecodedHead(t, Client, WordOf(b)), b[5..]);
  }

  lemma FilledKeepsHeader(link: Link, data: seq<Byte>)
    requires ValidLink(link) && link.offset + |data| <= link.size && link.offset >= 5
    ensures WordOf(Filled(link, data).buffer) == WordOf(link.buffer) && |Filled(link, data).buffer| == MAX_PACKET
  {
    hide WordOf;
    WordOfPrefix(Filled(link, data).buffer, link.buffer);
  }

  /** A completed read can be decoded exactly when it does not complete an overrunning header. */
  lemma ReadableIff(t: Table, link: Link, data: seq<Byte>)
    requires InSync(link) && link.offset + |data| == link.size
    ensures Readable(t, Filled(link, data)) <==> !HeaderOverruns(t, link, data)
  {
    hide WordOf, DecodedHead, DecodeHeader, Decodable, NoWrap, Overruns, Nat11, HeadSize;
    var f := Filled(link, data);
    if link.size == HEADER {
      DecodedHeader(t, f.buffer);
      var c := DecodeHeader(t, Client, f.buffer).0;
      DecodableIffNoWrap(c);
      OverrunIsShort(WordOf(c));
      if Nat11(HeadSize(WordOf(c))) == 6 {
        BareHeaderWraps(WordOf(c));
      }
    } else {
      FilledKeepsHeader(link, data);
      DecodableIffNoWrap(f.buffer);
      LongNeverWraps(WordOf(f.buffer));
    }
  }

  lemma OverrunIsShort(head: bv40)
    ensures Overruns(head) ==> Nat11(HeadSize(head)) == 6
  {
    SixIsSix(HeadSize(head));
  }

  lemma BodyDoneInSync(t: Table, link: Link)
    requires |link.buffer| == MAX_PACKET && Decodable(Client, link.buffer)
    ensures InSync(BodyDone(t, link))
  {
    hide Decodable, DecodeBody, Accepts, SizeField, WordOf, HeadSize, Nat11;
  }

  lemma ReceivedInSync(t: Table, f: Link)
    requires |f.buffer| == MAX_PACKET && f.offset == f.size >= HEADER && Readable(t, f)
    ensures InSync(Received(t, f))
  {
    hide Decodable, DecodeHeader, DecodedHead, WordOf, HeadSize, Nat11, BodyDone;
    if f.size == HEADER {
      DecodedHeader(t, f.buffer);
      var next := HeaderDone(t, f);
      if next.size == HEADER {
        BodyDoneInSync(t, next);
      }
    } else {
      BodyDoneInSync(t, f);
    }
  }

  lemma AnyReadInSync(t: Table, s: Session, n: nat)
    requires InSync(s.link) && Offered(s, Read(n))
    ensures Possible(t, s, Read(n)) <==> !HeaderOverruns(t, s.link, s.wire[..n])
    ensures Possible(t, s, Read(n)) ==> InSync(Step(t, s, Read(n)).link)
  {
    hide WordOf, Readable, Received, HeadSize, Nat11, Overruns, DecodedHead;
    var data := s.wire[..n];
    var f := Filled(s.link, data);
    assert |f.buffer| == MAX_PACKET;
    if f.offset == f.size {
      ReadableIff(t, s.link, data);
      if Readable(t, f) {
        ReceivedInSync(t, f);
      }
    } else if s.link.size > HEADER {
      FilledKeepsHeader(s.link, data);
    }
  }

  lemma HandleInSync(t: Table, s: Session, accepted: bool)
    requires InSync(s.link)
    ensures InSync(Step(t, s, Handle(accepted)).link)
  {
    hide WordOf, HeadSize, Nat11;
  }

  lemma {:induction false} RunInSync(t: Table, s: Session, events: seq<Event>)
    requires InSync(s.link) && Run(t, s, events)
    ensures InSync(Last(t, s, events).link)
    decreases |events|
  {
    hide InSync, Possible, Step, Offered;
    if |events| > 0 {
      var e := events[0];
      if e.Read? {
        AnyReadInSync(t, s, e.n);
      } else {
        HandleInSync(t, s, e.accepted);
      }
      RunInSync(t, Step(t, s, e), events[1..]);
    }
  }

  /**
    Whatever bytes the peer sends and however they arrive: offset, size and buffer stay in bounds, and the next
    read is decoded inside the buffer exactly when it does not complete a header of size 6 and EncryptValue 7.
   */
  lemma AnyBytesStayInBounds(t: Table, wire: seq<Byte>, buffer: seq<Byte>, events: seq<Event>, n: nat)
    requires |buffer| == MAX_PACKET && Run(t, Opened(buffer, wire), events)
    ensures var s := Last(t, Opened(buffer, wire), events);
      && ValidLink(s.link)
      && (Offered(s, Read(n)) ==> (Possible(t, s, Read(n)) <==> !HeaderOverruns(t, s.link, s.wire[..n])))
  {
    hide Run, Last, WordOf, HeadSize, Nat11, Possible, HeaderOverruns, Offered;
    var s0 := Opened(buffer, wire);
    RunInSync(t, s0, events);
    var s := Last(t, s0, events);
    if Offered(s, Read(n)) {
      AnyReadInSync(t, s, n);
    }
  }

  /** For every key table such a header exists, so some bytes do make decoding leave the buffer. */
  lemma SomeHeaderOverruns(t: Table, buffer: seq<Byte>) returns (wire: seq<Byte>)
    requires |buffer| == MAX_PACKET
    ensures |wire| == HEADER
    ensures Offered(Opened(buffer, wire), Read(HEADER)) && HeaderOverruns(t, Opened(buffer, wire).link, wire)
    ensures !Possible(t, Opened(buffer, wire), Read(HEADER))
  {
    hide HeadWord, HeadSize, HeadValue, DecodedHead, SealedHead, WordOf, Bytes, Nat11, Possible;
    var head := HeadWord(6, 0, 0x100, 4, 7);
    HeadRoundTrip(6, 0, 0x100, 4, 7);
    var w := SealedHead(t, Client, 0, head);
    AnyHeadDecodes(t, Client, 0, head);
    wire := Bytes(w) + [0];
    var s := Opened(buffer, wire);
    assert wire[..HEADER] == wire;
    var b := Filled(s.link, wire).buffer;
    assert b == Bytes(w) + ([0] + buffer[HEADER..]);
    JoinOfBytes(w, [0] + buffer[HEADER..]);
    AnyReadInSync(t, s, HEADER);
  }

  // ---- The objects -------------------------------------------------------------------------------

  /** The receiving fields of CNetwork_Asio and CRoseSocket. */
  class ClientSocket {
    const codec: PacketCodec.PacketCodec
    const buffer: array<Byte>
    var packetOffset: nat
    var packetSize: nat
    var active: bool
    var recvQueue: seq<seq<Byte>>
    ghost var handled: seq<seq<Byte>>

    constructor (codec: PacketCodec.PacketCodec)
      ensures this.codec == codec && fresh(buffer)
      ensures ValidLink(View()) && View() == Opened(buffer[..], []).link
    {
      this.codec := codec;
      buffer := new Byte[MAX_PACKET];
      packetOffset, packetSize, active, recvQueue, handled := 0, HEADER, true, [], [];
    }

    ghost function View(): Link
      reads this, buffer
    {
      Link(buffer[..], packetOffset, packetSize, active, recvQueue, handled)
    }

    method ResetInternalBuffer()
      modifies this
      ensures View() == Reset(old(View()))
    {
      packetOffset, packetSize := 0, HEADER;
    }

    /** Decode, copy the packet out of the buffer, queue it. */
    method FinishPacket() returns (ok: bool)
      requires codec.Sized() && buffer.Length == MAX_PACKET && Decodable(Client, buffer[..])
      modifies this, buffer
      ensures ok == Accepts(codec.Keys(), Client, old(buffer[..]))
      ensures View() == BodyDone(codec.Keys(), old(View())).(active := old(active))
    {
      hide Decodable, Accepts, DecodeBody, SizeField;
      ok := codec.DecodePacketBody(Client, buffer);
      if ok {
        AcceptedSizeFits(codec.Keys(), old(buffer[..]));
        recvQueue := recvQueue + [buffer[..SizeField(buffer[0], buffer[1])]];
      }
      ResetInternalBuffer();
    }

    method OnReceived() returns (ok: bool)
      requires codec.Sized() && buffer.Length == MAX_PACKET && active && Readable(codec.Keys(), View())
      modifies this, buffer
      ensures ok == Received(codec.Keys(), old(View())).active
      ensures View() == Received(codec.Keys(), old(View())).(active := old(active))
    {
      hide Decodable, Accepts, DecodeBody, SizeField, DecodeHeader;
      if packetSize == HEADER {
        packetSize := codec.DecodePacketHeader(Client, buffer);
        if packetSize < HEADER || packetSize > MAX_PACKET {
          ResetInternalBuffer();
          return false;
        }
        if packetSize > HEADER {
          return true;
        }
      }
      ok := FinishPacket();
    }

    /**
      The completion handler of recv_data; a refusal shuts the connection down. The bytes may be anything that
      does not complete an overrunning header.
     */
    method OnReadCompleted(data: seq<Byte>)
      requires codec.Sized() && InSync(View()) && active && packetOffset + |data| <= packetSize
      requires !HeaderOverruns(codec.Keys(), View(), data)
      modifies this, buffer
      ensures var s := Session(old(View()), data);
        && Possible(codec.Keys(), s, Read(|data|)) && View() == Step(codec.Keys(), s, Read(|data|)).link
      ensures InSync(View())
    {
      hide Readable, Received, HeaderOverruns, WordOf, HeadSize, Nat11;
      ghost var before := View();
      ghost var keys := codec.Keys();
      assert data[..|data|] == data;
      AnyReadInSync(keys, Session(before, data), |data|);
      forall i | 0 <= i < |data| {
        buffer[packetOffset + i] := data[i];
      }
      packetOffset := packetOffset + |data|;
      assert buffer[..] == Filled(before, data).buffer;
      assert View() == Filled(before, data);
      if packetOffset == packetSize {
        assert codec.Keys() == keys;
        var ok := OnReceived();
        if !ok {
          active := false;
        }
      }
    }

    /** The dispatched handler: one packet, and a refusal shuts the connection down. */
    method HandleNext(accepted: bool)
      modifies this
      ensures View() == Dispatched(old(View()), accepted)
    {
      if active && |recvQueue| > 0 {
        handled := handled + [recvQueue[0]];
        recvQueue := recvQueue[1..];
        active := accepted;
      }
    }
  }
}
