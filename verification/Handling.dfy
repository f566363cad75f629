/**
  What becomes of received packets: each dispatched handler takes one off the queue, in order,
  until one refuses.
 */
module Handling {
  import opened Checksum
  import opened HeaderLayout
  import opened Cipher
  import opened Framing

  /** A handler that finds a packet takes the first and decides whether the connection goes on. */
  lemma HandleTakesFirst(t: Table, s: Session, accepted: bool)
    ensures var next, q := Step(t, s, Handle(accepted)), s.link.queue;
      if s.link.active && |q| > 0 then
        && next.link.handled == s.link.handled + [q[0]] && next.link.queue == q[1..]
        && next.link.active == accepted && next.wire == s.wire
      else next == s
  {}

  lemma BodyKeepsHandled(t: Table, link: Link)
    requires |link.buffer| == MAX_PACKET && Decodable(Client, link.buffer)
    ensures BodyDone(t, link).handled == link.handled
  {
    hide Decodable, DecodeBody, Accepts, SizeField;
  }

  lemma ReadKeepsHandled(t: Table, s: Session, n: nat)
    requires Possible(t, s, Read(n))
    ensures Step(t, s, Read(n)).link.handled == s.link.handled
  {
    hide Decodable, DecodeHeader, BodyDone;
    var f := Filled(s.link, s.wire[..n]);
    if f.offset == f.size {
      if f.size != HEADER {
        BodyKeepsHandled(t, f);
      } else if HeaderDone(t, f).size == HEADER {
        BodyKeepsHandled(t, HeaderDone(t, f));
      }
    }
  }

  predicate FindsPacket(s: Session, e: Event) {
    e.Handle? && s.link.active && |s.link.queue| > 0
  }

  /** The handlers of a run that found a packet waiting. */
  function Served(t: Table, s: Session, events: seq<Event>): nat
    requires Run(t, s, events)
    decreases |events|
  {
    if |events| == 0 then 0
    else (if FindsPacket(s, events[0]) then 1 else 0) + Served(t, Step(t, s, events[0]), events[1..])
  }

  lemma EventHandles(t: Table, s: Session, e: Event)
    requires Possible(t, s, e)
    ensures |Step(t, s, e).link.handled| == |s.link.handled| + if FindsPacket(s, e) then 1 else 0
  {
    hide Possible, Step;
    if e.Read? {
      ReadKeepsHandled(t, s, e.n);
    } else {
      HandleTakesFirst(t, s, e.accepted);
    }
  }

  lemma {:induction false} HandledCount(t: Table, s: Session, events: seq<Event>)
    requires Run(t, s, events)
    ensures |Last(t, s, events).link.handled| == |s.link.handled| + Served(t, s, events)
    decreases |events|
  {
    hide Possible, Step, Offered, FindsPacket;
    if |events| > 0 {
      EventHandles(t, s, events[0]);
      HandledCount(t, Step(t, s, events[0]), events[1..]);
    }
  }

  /** In every run, the handled packets are the first so many as handlers found a packet. */
  lemma HandledAreFirst(t: Table, ps: seq<seq<Byte>>, buffer: seq<Byte>, events: seq<Event>)
    requires Packets(ps) && |buffer| == MAX_PACKET && Run(t, Opened(buffer, Wire(t, ps)), events)
    ensures var s0 := Opened(buffer, Wire(t, ps));
      Served(t, s0, events) <= |ps| && Last(t, s0, events).link.handled == Deliveries(ps)[..Served(t, s0, events)]
  {
    hide Run, Last, Served, Wire, Deliveries, Packets;
    FramingIsExact(t, ps, buffer, events);
    var s0 := Opened(buffer, Wire(t, ps));
    HandledCount(t, s0, events);
    PrefixOf(Last(t, s0, events).link.handled, Last(t, s0, events).link.queue, Deliveries(ps));
  }

  lemma PrefixOf<T>(x: seq<T>, y: seq<T>, all: seq<T>)
    requires x + y <= all
    ensures |x| <= |all| && x == all[..|x|]
  {
    assert x == (x + y)[..|x|];
  }

  predicate AllAccepting(events: seq<Event>) {
    forall i | 0 <= i < |events| :: events[i] == Handle(true)
  }

  /** Enough accepting handlers empty the queue. */
  lemma {:induction false} HandlersEmptyTheQueue(t: Table, s: Session, events: seq<Event>)
    requires s.link.active && AllAccepting(events) && |events| >= |s.link.queue| && Run(t, s, events)
    ensures var link := Last(t, s, events).link;
      link.handled == s.link.handled + s.link.queue && link.queue == [] && link.active
    decreases |events|
  {
    hide Possible, Step, Offered;
    if |events| > 0 {
      var next, q := Step(t, s, events[0]), s.link.queue;
      HandleTakesFirst(t, s, true);
      assert forall i | 0 <= i < |events[1..]| :: events[1..][i] == events[i + 1];
      HandlersEmptyTheQueue(t, next, events[1..]);
      if |q| > 0 {
        assert s.link.handled + [q[0]] + q[1..] == s.link.handled + q;
      }
    }
  }

  /** Once the bytes are used up and as many handlers as packets have come, every packet has been handled. */
  lemma EverythingIsHandled(t: Table, ps: seq<seq<Byte>>, buffer: seq<Byte>, events: seq<Event>, handlers: seq<Event>)
    requires Packets(ps) && |buffer| == MAX_PACKET && Run(t, Opened(buffer, Wire(t, ps)), events)
    requires NeverRefused(events) && Last(t, Opened(buffer, Wire(t, ps)), events).wire == []
    requires AllAccepting(handlers) && |handlers| >= |ps|
    requires Run(t, Last(t, Opened(buffer, Wire(t, ps)), events), handlers)
    ensures var link := Last(t, Last(t, Opened(buffer, Wire(t, ps)), events), handlers).link;
      link.handled == Deliveries(ps) && link.queue == []
  {
    hide Run, Last, Wire, Deliveries, Packets, AllAccepting, NeverRefused;
    FramingIsExact(t, ps, buffer, events);
    HandlersEmptyTheQueue(t, Last(t, Opened(buffer, Wire(t, ps)), events), handlers);
  }

  /** On a connection that is shut down nothing happens any more. */
  lemma {:induction false} ShutDownIsFinal(t: Table, s: Session, events: seq<Event>)
    requires !s.link.active && Run(t, s, events)
    ensures Last(t, s, events) == s
    decreases |events|
  {
    hide Possible;
    if |events| > 0 {
      ShutDownIsFinal(t, Step(t, s, events[0]), events[1..]);
    }
  }

  /** The packet that a handler refuses is the last one handled. */
  lemma RefusalIsTheLast(t: Table, s: Session, events: seq<Event>)
    requires FindsPacket(s, Handle(false)) && Run(t, Step(t, s, Handle(false)), events)
    ensures Last(t, Step(t, s, Handle(false)), events).link.handled == s.link.handled + [s.link.queue[0]]
  {
    hide Run, Last;
    ShutDownIsFinal(t, Step(t, s, Handle(false)), events);
  }
}
