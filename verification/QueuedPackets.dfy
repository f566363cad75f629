/**
  How long the packets are that come out of a connection, whatever bytes go in: the handlers
  read a whole header without asking.
 */
module QueuedPackets {
  import opened Checksum
  import opened HeaderLayout
  import opened Cipher
  import opened Framing

  /** What has come out of the connection so far, handled or waiting. */
  function CameOut(link: Link): seq<seq<Byte>> {
    link.handled + link.queue
  }

  /** Every packet has a whole header, as HandlePacket takes for granted. */
  predicate AllLong(link: Link) {
    forall i | 0 <= i < |CameOut(link)| :: |CameOut(link)[i]| >= HEADER
  }

  /** The header subtracts so much from the size that less than a header is left. */
  predicate Short(head: bv40) {
    HeadSize(head) as bv16 < 6 + HeadValue(head) as bv16
  }

  lemma ShortDifference(size: bv16, value: bv16)
    requires value <= 7 && size <= 0x7FF && size >= value
    ensures size - value < 6 <==> size < 6 + value
  {}

  lemma ShortLength(v: bv16)
    ensures Nat16(v) < 6 <==> v < 6
  {}

  lemma FieldsWidened(size: bv11, value: bv3)
    ensures value as bv16 <= 7 && size as bv16 <= 0x7FF
    ensures size >= value as bv11 <==> size as bv16 >= value as bv16
  {}

  lemma ShortIff(head: bv40)
    requires NoWrap(head)
    ensures Nat16(BodyLength(Client, head)) < 6 <==> Short(head)
  {
    hide HeadSize, HeadValue, Nat16;
    var size, value := HeadSize(head), HeadValue(head);
    FieldsWidened(size, value);
    ShortDifference(size as bv16, value as bv16);
    ShortLength(BodyLength(Client, head));
  }

  /** The link as the body phase finds it. */
  function AtBody(t: Table, f: Link): Link
    requires |f.buffer| == MAX_PACKET
  {
    if f.size == HEADER then HeaderDone(t, f) else f
  }

  /** The completed read ends a packet that decoding accepts. */
  predicate EndsPacket(t: Table, f: Link)
    requires Readable(t, f)
  {
    && (f.size != HEADER || HeaderDone(t, f).size == HEADER)
    && Accepts(t, Client, AtBody(t, f).buffer)
  }

  lemma QueuedLength(t: Table, link: Link)
    requires |link.buffer| == MAX_PACKET && Decodable(Client, link.buffer)
    ensures var next := BodyDone(t, link);
      if Accepts(t, Client, link.buffer) then
        && |next.queue| == |link.queue| + 1 && next.queue[..|link.queue|] == link.queue
        && |next.queue[|link.queue|]| == Nat16(BodyLength(Client, WordOf(link.buffer)))
      else next.queue == link.queue
    ensures BodyDone(t, link).handled == link.handled
  {
    hide WordOf, BodyLength, Accepts, DecodeBody, SizeField, Low, High, PlainBody, HeadCommand, Nat16, Decodable;
    if Accepts(t, Client, link.buffer) {
      AcceptedSizeFits(t, link.buffer);
      AcceptedSize(t, link.buffer);
    }
  }

  lemma AcceptedSize(t: Table, b: seq<Byte>)
    requires Decodable(Client, b) && Accepts(t, Client, b)
    ensures var d := DecodeBody(t, Client, b);
      |d| == |b| >= 6 && SizeField(d[0], d[1]) == Nat16(BodyLength(Client, WordOf(b)))
  {
    hide WordOf, BodyLength, Accepts, DecodeBody, SizeField, Low, High, PlainBody, HeadCommand, Nat16;
    var head := WordOf(b);
    var length := BodyLength(Client, head);
    DecodeBodyIs(t, Client, b, head, BodyEnd(Nat16(length)));
    SizeFieldReadsBack(length);
    assert PlainHead(length, HeadCommand(head))[..2] == [Low(length), High(length)];
  }

  /** A completed read queues at most one packet, shorter than a header exactly when its header says so. */
  lemma ReceivedQueues(t: Table, f: Link)
    requires |f.buffer| == MAX_PACKET && f.offset == f.size >= HEADER && Readable(t, f)
    ensures Received(t, f).handled == f.handled
    ensures var next := Received(t, f).queue;
      if EndsPacket(t, f) then
        && |next| == |f.queue| + 1 && next[..|f.queue|] == f.queue
        && (|next[|f.queue|]| < HEADER <==> Short(WordOf(AtBody(t, f).buffer)))
      else next == f.queue
  {
    hide Decodable, DecodeHeader, Accepts, WordOf, HeadSize, Nat11, BodyDone, Short, NoWrap, BodyLength, Nat16;
    var link := AtBody(t, f);
    if f.size != HEADER || link.size == HEADER {
      QueuedLength(t, link);
      DecodableIffNoWrap(link.buffer);
      ShortIff(WordOf(link.buffer));
    }
  }

  /** The event completes and queues a packet whose header leaves it less than six bytes. */
  predicate QueuesShort(t: Table, s: Session, e: Event)
    requires Possible(t, s, e)
  {
    e.Read? && s.link.offset + e.n == s.link.size &&
    var f := Filled(s.link, s.wire[..e.n]);
    EndsPacket(t, f) && Short(WordOf(AtBody(t, f).buffer))
  }

  lemma EventQueues(t: Table, s: Session, e: Event)
    requires InSync(s.link) && Possible(t, s, e)
    ensures CameOut(s.link) <= CameOut(Step(t, s, e).link)
    ensures AllLong(s.link) ==> (AllLong(Step(t, s, e).link) <==> !QueuesShort(t, s, e))
  {
    hide Readable, Received, EndsPacket, Short, WordOf, AtBody, HeadSize, Nat11;
    if e.Read? {
      var f := Filled(s.link, s.wire[..e.n]);
      assert f.queue == s.link.queue && f.handled == s.link.handled && |f.buffer| == MAX_PACKET;
      if f.offset == f.size {
        ReceivedQueues(t, f);
        var before, after := CameOut(s.link), CameOut(Step(t, s, e).link);
        var n := |s.link.queue|;
        if EndsPacket(t, f) {
          var q := Received(t, f).queue;
          assert q == q[..n] + [q[n]];
          assert after == before + [q[n]];
          assert after[|before|] == q[n];
        } else {
          assert after == before;
        }
      }
    } else if s.link.active && |s.link.queue| > 0 {
      var q := s.link.queue;
      assert s.link.handled + [q[0]] + q[1..] == s.link.handled + q;
    }
  }

  predicate NeverQueuesShort(t: Table, s: Session, events: seq<Event>)
    requires Run(t, s, events)
    decreases |events|
  {
    |events| == 0 || (!QueuesShort(t, s, events[0]) && NeverQueuesShort(t, Step(t, s, events[0]), events[1..]))
  }

  lemma EventInSync(t: Table, s: Session, e: Event)
    requires InSync(s.link) && Offered(s, e) && Possible(t, s, e)
    ensures InSync(Step(t, s, e).link)
  {
    hide InSync, Possible, Step, Offered, HeaderOverruns;
    if e.Read? {
      AnyReadInSync(t, s, e.n);
    } else {
      HandleInSync(t, s, e.accepted);
    }
  }

  lemma {:induction false} RunQueues(t: Table, s: Session, events: seq<Event>)
    requires InSync(s.link) && Run(t, s, events)
    ensures CameOut(s.link) <= CameOut(Last(t, s, events).link)
    ensures AllLong(s.link) ==> (AllLong(Last(t, s, events).link) <==> NeverQueuesShort(t, s, events))
    decreases |events|
  {
    hide InSync, Possible, Step, Offered, QueuesShort, CameOut, AllLong;
    if |events| > 0 {
      var next := Step(t, s, events[0]);
      EventInSync(t, s, events[0]);
      EventQueues(t, s, events[0]);
      RunQueues(t, next, events[1..]);
      if AllLong(Last(t, s, events).link) {
        LongerIsLong(next.link, Last(t, s, events).link);
      }
    }
  }

  lemma LongerIsLong(link: Link, later: Link)
    requires CameOut(link) <= CameOut(later) && AllLong(later)
    ensures AllLong(link)
  {}

  /**
    For any bytes in any cutting, every packet that comes out has at least six bytes exactly when none was
    completed under a header whose size is less than six more than its EncryptValue.
   */
  lemma LongIffNoShortHeader(t: Table, wire: seq<Byte>, buffer: seq<Byte>, events: seq<Event>)
    requires |buffer| == MAX_PACKET && Run(t, Opened(buffer, wire), events)
    ensures AllLong(Last(t, Opened(buffer, wire), events).link) <==>
      NeverQueuesShort(t, Opened(buffer, wire), events)
  {
    hide Run, Last, NeverQueuesShort, WordOf, HeadSize, Nat11;
    RunQueues(t, Opened(buffer, wire), events);
  }

  lemma BareBodyAccepted(t: Table, b: seq<Byte>, head: bv40)
    requires |b| == MAX_PACKET && WordOf(b) == head && Nat16(BodyLength(Client, head)) == 0
    requires b[5] == HeadChecksum(head)
    ensures Decodable(Client, b) && Accepts(t, Client, b)
  {
    hide WordOf, BodyLength, Nat16, HeadChecksum, Accepts, PlainBody, DecodeBody, PlainHead, HeadCommand;
    DecodeBodyIs(t, Client, b, head, 6);
    assert b[6..6] == [];
    assert Xor([], Stream(t, head, 0)) == [];
    CrcEmpty(HeadChecksum(head));
  }

  lemma NothingLeft(head: bv40)
    requires HeadSize(head) == 6 && HeadValue(head) == 6
    ensures Nat16(BodyLength(Client, head)) == 0 && Nat11(HeadSize(head)) == 6
  {
    SixIsSix(HeadSize(head));
  }

  /** For every key table, six bytes that put an empty packet on the receive queue. */
  lemma SomeHeaderQueuesNothing(t: Table, buffer: seq<Byte>) returns (wire: seq<Byte>)
    requires |buffer| == MAX_PACKET
    ensures |wire| == HEADER && Run(t, Opened(buffer, wire), [Read(HEADER)])
    ensures var link := Last(t, Opened(buffer, wire), [Read(HEADER)]).link; link.active && link.queue == [[]]
  {
    hide HeadWord, HeadSize, HeadValue, DecodedHead, SealedHead, WordOf, Bytes, Nat11, Nat16, BodyLength;
    hide HeadChecksum, Decodable, Accepts, DecodeBody, DecodeHeader, SizeField;
    var head := HeadWord(6, 0, 0x100, 4, 6);
    HeadRoundTrip(6, 0, 0x100, 4, 6);
    NothingLeft(head);
    var w := SealedHead(t, Client, 0, head);
    AnyHeadDecodes(t, Client, 0, head);
    wire := Bytes(w) + [HeadChecksum(head)];
    var s := Opened(buffer, wire);
    assert wire[..HEADER] == wire;
    var f := Filled(s.link, wire);
    var rest := [HeadChecksum(head)] + buffer[HEADER..];
    assert f.buffer == Bytes(w) + rest;
    JoinOfBytes(w, rest);
    DecodedHeader(t, f.buffer);
    var link := HeaderDone(t, f);
    assert link.buffer[5] == f.buffer[5] by { assert link.buffer[5..][0] == f.buffer[5..][0]; }
    BareBodyAccepted(t, link.buffer, head);
    QueuedLength(t, link);
    EmptyOnly(BodyDone(t, link).queue);
    var events := [Read(HEADER)];
    assert events[1..] == [];
    assert Last(t, Step(t, s, Read(HEADER)), []) == Step(t, s, Read(HEADER));
  }

  lemma EmptyOnly(queue: seq<seq<Byte>>)
    requires |queue| == 1 && |queue[0]| == 0
    ensures queue == [[]]
  {}
}
