/**
  Parties on a map server: the Party component of each entity points to a shared party object,
  the party object lists its members and its leader, and removing a component cascades when
  only one member would be left.
 */
module Party {
  import opened Options

  type Entity = nat
  type PartyId = nat

  /** The Party component. A party object is named by its position in the list of all made so far. */
  datatype Component = Component(party: Option<PartyId>, requested: bool, kicked: bool)

  predicate NoDuplicates(s: seq<Entity>) {
    forall i, j | 0 <= i < j < |s| :: s[i] != s[j]
  }

  function IndexOf(s: seq<Entity>, e: Entity): (k: nat)
    requires e in s
    ensures k < |s| && s[k] == e && e !in s[..k]
  {
    if s[0] == e then 0 else 1 + IndexOf(s[1..], e)
  }

  datatype PartyBase = PartyBase(leader: Entity, members: seq<Entity>) {
    predicate IsMember(e: Entity) {
      e in members
    }

    function Added(e: Entity): PartyBase {
      if e in members then this else this.(members := members + [e])
    }

    /** Erase the first occurrence; a leaving leader hands over to the first of those left. */
    function Removed(e: Entity): PartyBase {
      if e !in members then this
      else
        var k := IndexOf(members, e);
        var rest := members[..k] + members[k + 1..];
        PartyBase(if leader == e && |rest| > 0 then rest[0] else leader, rest)
    }
  }

  datatype World = World(comps: map<Entity, Component>, parties: seq<PartyBase>)

  predicate InParty(w: World, e: Entity) {
    e in w.comps && w.comps[e].party.Some? && w.comps[e].party.value < |w.parties|
  }

  function PartyOf(w: World, e: Entity): PartyBase
    requires InParty(w, e)
  {
    w.parties[w.comps[e].party.value]
  }

  // ---- Operations --------------------------------------------------------------------------

  /** Dropping a component and, when its party lists the entity, leaving that party. */
  function LeaveOnce(w: World, e: Entity): World
    requires e in w.comps
  {
    var without := w.(comps := w.comps - {e});
    if !InParty(w, e) || !PartyOf(w, e).IsMember(e) then without
    else without.(parties := w.parties[w.comps[e].party.value := PartyOf(w, e).Removed(e)])
  }

  /** entity.remove<Party>() with its callback: when one member is left, that one is removed too. */
  function RemoveComponent(w: World, e: Entity): World
    decreases |w.comps|
  {
    if e !in w.comps then w
    else
      var left := LeaveOnce(w, e);
      if InParty(w, e) && PartyOf(w, e).IsMember(e) && |left.parties[w.comps[e].party.value].members| == 1 then
        RemoveShrinks(w.comps, e);
        RemoveComponent(left, left.parties[w.comps[e].party.value].members[0])
      else left
  }

  lemma RemoveShrinks(m: map<Entity, Component>, e: Entity)
    requires e in m
    ensures |m - {e}| < |m|
  {
    assert m.Keys == (m - {e}).Keys + {e};
  }

  function AddPartyMember(w: World, leader: Entity, member: Entity): World {
    if leader !in w.comps || member in w.comps then w
    else
      var c := w.comps[leader];
      var made := if c.party.Some? then w
                  else World(w.comps[leader := c.(party := Some(|w.parties|))],
                             w.parties + [PartyBase(leader, [leader])]);
      var id := if c.party.Some? then c.party.value else |w.parties|;
      var joined := made.(comps := made.comps[member := Component(Some(id), false, false)]);
      if id >= |joined.parties| then joined
      else joined.(parties := joined.parties[id := joined.parties[id].Added(member)])
  }

  function ChangeLeader(w: World, leader: Entity, successor: Entity): World {
    if !InParty(w, leader) then w
    else
      var id := w.comps[leader].party.value;
      var party := w.parties[id];
      if !party.IsMember(successor) || successor == party.leader then w
      else w.(parties := w.parties[id := party.(leader := successor)])
  }

  datatype Request = Make | Join | Left | ChangeOwner | Kick | OtherRequest

  /** processPartyReq; `reachable` says whether the other character exists and has a client. */
  function ProcessRequest(w: World, e: Entity, other: Entity, reachable: bool, request: Request): World {
    if !reachable then w
    else
      match request
      case Make =>
        if e in w.comps && w.comps[e].party.Some? then w
        else w.(comps := w.comps[e := Component(None, true, false)])
      case Join =>
        if e in w.comps && w.comps[e].party.Some? then w.(comps := w.comps[e := w.comps[e].(requested := true)])
        else w
      case Left => RemoveComponent(w, e)
      case ChangeOwner =>
        if InParty(w, e) && PartyOf(w, e).leader == e then ChangeLeader(w, e, other) else w
      case Kick =>
        if InParty(w, e) && PartyOf(w, e).IsMember(other) && other in w.comps then
          RemoveComponent(w.(comps := w.comps[other := w.comps[other].(kicked := true)]), other)
        else w
      case OtherRequest => w
  }

  datatype Reply = Busy | Reject | AcceptMake | AcceptJoin | OtherReply

  /** processPartyReply: e answers the request of other. */
  function ProcessReply(w: World, e: Entity, other: Entity, reachable: bool, reply: Reply): World {
    if !reachable || other !in w.comps || !w.comps[other].requested then w
    else
      var answered := w.(comps := w.comps[other := w.comps[other].(requested := false)]);
      match reply
      case Busy => if answered.comps[other].party.None? then RemoveComponent(answered, other) else answered
      case Reject => if answered.comps[other].party.None? then RemoveComponent(answered, other) else answered
      case AcceptMake => AddPartyMember(answered, other, e)
      case AcceptJoin => AddPartyMember(answered, other, e)
      case OtherReply => w
  }

  predicate Stale(c: Component) {
    c.party.None? && !c.requested
  }

  /** update: entities with a BasicInfo lose a component that has neither a party nor a request. */
  function Update(w: World, infos: set<Entity>): World {
    w.(comps := map e | e in w.comps && !(e in infos && Stale(w.comps[e])) :: w.comps[e])
  }

  // ---- The invariant --------------------------------------------------------------------------

  predicate Belongs(w: World, e: Entity, id: PartyId) {
    e in w.comps && w.comps[e].party == Some(id)
  }

  ghost predicate Sound(p: PartyBase) {
    NoDuplicates(p.members) && (|p.members| > 0 ==> p.leader in p.members)
  }

  /** Members and components agree, lists have no duplicates, leaders are members. */
  ghost predicate Linked(w: World) {
    && (forall e | e in w.comps && w.comps[e].party.Some? :: w.comps[e].party.value < |w.parties|)
    && (forall e, id | 0 <= id < |w.parties| :: e in w.parties[id].members <==> Belongs(w, e, id))
    && (forall id | 0 <= id < |w.parties| :: Sound(w.parties[id]))
  }

  /** No party has exactly one member, unless that one is on the way out. */
  ghost predicate AloneAtMost(w: World, leaving: set<Entity>) {
    forall id | 0 <= id < |w.parties| && |w.parties[id].members| == 1 :: w.parties[id].members[0] in leaving
  }

  ghost predicate Consistent(w: World) {
    Linked(w) && AloneAtMost(w, {})
  }

  lemma RemovedMembers(p: PartyBase, e: Entity)
    requires NoDuplicates(p.members) && e in p.members
    ensures var q := p.Removed(e);
      && NoDuplicates(q.members) && |q.members| == |p.members| - 1
      && (forall x :: x in q.members <==> x in p.members && x != e)
      && (p.leader in p.members && |q.members| > 0 ==> q.leader in q.members)
      && (p.leader != e ==> q.leader == p.leader)
  {
    var k := IndexOf(p.members, e);
    var q := p.Removed(e);
    assert forall i | 0 <= i < |q.members| :: q.members[i] == if i < k then p.members[i] else p.members[i + 1];
    forall x | x in p.members && x != e
      ensures x in q.members
    {
      var i :| 0 <= i < |p.members| && p.members[i] == x;
      assert q.members[if i < k then i else i - 1] == x;
    }
  }

  // ---- Removing a component ------------------------------------------------------------------------

  /** The others keep their order, and the first of them takes the place of a leader who left. */
  lemma RemovedOrder(p: PartyBase, e: Entity)
    requires e in p.members
    ensures var k, q := IndexOf(p.members, e), p.Removed(e);
      && k <= |q.members| && p.members == q.members[..k] + [e] + q.members[k..]
      && (p.leader != e ==> q.leader == p.leader)
      && (p.leader == e && |q.members| > 0 ==> q.leader == q.members[0])
  {}

  lemma LeaveKeepsLinked(w: World, e: Entity)
    requires Linked(w) && e in w.comps
    ensures Linked(LeaveOnce(w, e))
    ensures InParty(w, e) ==> PartyOf(w, e).IsMember(e)
  {
    hide PartyBase.Removed, NoDuplicates;
    var u := LeaveOnce(w, e);
    if InParty(w, e) {
      var id := w.comps[e].party.value;
      assert Belongs(w, e, id);
      RemovedMembers(w.parties[id], e);
    }
    forall x, k | 0 <= k < |u.parties|
      ensures x in u.parties[k].members <==> Belongs(u, x, k)
    {
      assert x in w.parties[k].members <==> Belongs(w, x, k);
    }
  }

  lemma {:induction false} RemoveKeepsLinked(w: World, e: Entity)
    requires Linked(w)
    ensures Linked(RemoveComponent(w, e))
    decreases |w.comps|
  {
    hide Linked, LeaveOnce;
    if e in w.comps {
      LeaveKeepsLinked(w, e);
      RemoveShrinks(w.comps, e);
      var left := LeaveOnce(w, e);
      assert left.comps == w.comps - {e} && |left.parties| == |w.parties| by { LeaveShape(w, e); }
      if InParty(w, e) && |left.parties[w.comps[e].party.value].members| == 1 {
        RemoveKeepsLinked(left, left.parties[w.comps[e].party.value].members[0]);
      }
    }
  }

  lemma LeaveShape(w: World, e: Entity)
    requires e in w.comps
    ensures var u := LeaveOnce(w, e);
      && u.comps == w.comps - {e} && |u.parties| == |w.parties|
      && (forall k | 0 <= k < |w.parties| && !(InParty(w, e) && k == w.comps[e].party.value) ::
            u.parties[k] == w.parties[k])
      && (InParty(w, e) && PartyOf(w, e).IsMember(e) ==>
            u.parties[w.comps[e].party.value] == PartyOf(w, e).Removed(e))
  {
    hide PartyBase.Removed;
  }

  /** If only the leaving entity may be alone, nobody is alone afterwards. */
  lemma {:induction false} RemoveLeavesNobodyAlone(w: World, e: Entity)
    requires Linked(w) && AloneAtMost(w, {e})
    ensures AloneAtMost(RemoveComponent(w, e), {})
    decreases |w.comps|
  {
    hide LeaveOnce, PartyBase.Removed, NoDuplicates;
    forall id | 0 <= id < |w.parties| && |w.parties[id].members| == 1
      ensures Belongs(w, e, id)
    {
      assert w.parties[id].members[0] == e;
    }
    if e in w.comps {
      LeaveKeepsLinked(w, e);
      LeaveShape(w, e);
      RemoveShrinks(w.comps, e);
      var left := LeaveOnce(w, e);
      if InParty(w, e) {
        var id := w.comps[e].party.value;
        RemovedMembers(w.parties[id], e);
        if |left.parties[id].members| == 1 {
          RemoveLeavesNobodyAlone(left, left.parties[id].members[0]);
        }
      }
    }
  }

  lemma RemoveKeepsConsistent(w: World, e: Entity)
    requires Consistent(w)
    ensures Consistent(RemoveComponent(w, e))
  {
    hide Linked, RemoveComponent;
    RemoveKeepsLinked(w, e);
    RemoveLeavesNobodyAlone(w, e);
  }

  function Elements(s: seq<Entity>): set<Entity> {
    set x | x in s
  }

  /** The cascade in full: of a party of two both go, of a larger one only the leaver. */
  lemma RemovalEffect(w: World, e: Entity)
    requires Consistent(w) && e in w.comps
    ensures var u := RemoveComponent(w, e);
      && |u.parties| == |w.parties|
      && (forall k | 0 <= k < |w.parties| && !Belongs(w, e, k) :: u.parties[k] == w.parties[k])
      && (if InParty(w, e) then
            var id := w.comps[e].party.value;
            if |w.parties[id].members| == 2 then
              u.comps == w.comps - Elements(w.parties[id].members) && u.parties[id].members == []
            else
              u.comps == w.comps - {e} && u.parties[id] == w.parties[id].Removed(e)
          else u.comps == w.comps - {e})
  {
    hide PartyBase.Removed, NoDuplicates, LeaveOnce;
    LeaveKeepsLinked(w, e);
    LeaveShape(w, e);
    var left := LeaveOnce(w, e);
    if InParty(w, e) {
      var id := w.comps[e].party.value;
      assert Belongs(w, e, id);
      RemovedMembers(w.parties[id], e);
      if |left.parties[id].members| == 1 {
        var last := left.parties[id].members[0];
        assert Belongs(left, last, id);
        LeaveShape(left, last);
        RemovedMembers(left.parties[id], last);
        PairMembers(w.parties[id].members, e, last);
        assert w.comps - {e} - {last} == w.comps - Elements(w.parties[id].members);
      }
    }
  }

  lemma PairMembers(s: seq<Entity>, e: Entity, last: Entity)
    requires |s| == 2 && e in s && last in s && last != e
    ensures Elements(s) == {e, last}
  {
    assert s[0] in s && s[1] in s;
  }

  // ---- The other operations --------------------------------------------------------------------------

  /** Changing flags of a component, or giving an entity a component without a party, disturbs nothing. */
  lemma FlagsKeepConsistent(w: World, e: Entity, c: Component)
    requires Consistent(w) && (if e in w.comps then c.party == w.comps[e].party else c.party.None?)
    ensures Consistent(w.(comps := w.comps[e := c]))
  {
    var u := w.(comps := w.comps[e := c]);
    forall x, k | 0 <= k < |u.parties|
      ensures x in u.parties[k].members <==> Belongs(u, x, k)
    {
      assert x in w.parties[k].members <==> Belongs(w, x, k);
    }
  }

  lemma JoinKeepsConsistent(w: World, leader: Entity, member: Entity)
    requires Consistent(w) && leader in w.comps && w.comps[leader].party.Some? && member !in w.comps
    ensures Consistent(AddPartyMember(w, leader, member))
  {
    var u := AddPartyMember(w, leader, member);
    var id := w.comps[leader].party.value;
    assert Belongs(w, leader, id);
    assert member !in w.parties[id].members by { assert !Belongs(w, member, id); }
    forall x, k | 0 <= k < |u.parties|
      ensures x in u.parties[k].members <==> Belongs(u, x, k)
    {
      assert x in w.parties[k].members <==> Belongs(w, x, k);
    }
  }

  lemma FoundKeepsConsistent(w: World, leader: Entity, member: Entity)
    requires Consistent(w) && leader in w.comps && w.comps[leader].party.None? && member !in w.comps
    ensures Consistent(AddPartyMember(w, leader, member))
  {
    var u := AddPartyMember(w, leader, member);
    var id := |w.parties|;
    var one := PartyBase(leader, [leader]);
    assert one.Added(member).members == [leader, member] by { assert member != leader; }
    assert u.parties == (w.parties + [one])[id := one.Added(member)];
    assert u.parties == w.parties + [one.Added(member)];
    forall x, k | 0 <= k < |u.parties|
      ensures x in u.parties[k].members <==> Belongs(u, x, k)
    {
      if k < id {
        assert x in w.parties[k].members <==> Belongs(w, x, k);
      } else {
        assert !Belongs(w, x, id);
      }
    }
  }

  lemma ChangeLeaderKeepsConsistent(w: World, leader: Entity, successor: Entity)
    requires Consistent(w)
    ensures Consistent(ChangeLeader(w, leader, successor))
  {
    var u := ChangeLeader(w, leader, successor);
    forall x, k | 0 <= k < |u.parties|
      ensures x in u.parties[k].members <==> Belongs(u, x, k)
    {
      assert x in w.parties[k].members <==> Belongs(w, x, k);
    }
  }

  lemma AddKeepsConsistent(w: World, leader: Entity, member: Entity)
    requires Consistent(w)
    ensures Consistent(AddPartyMember(w, leader, member))
  {
    hide Consistent, AddPartyMember;
    if leader in w.comps && member !in w.comps {
      if w.comps[leader].party.Some? {
        JoinKeepsConsistent(w, leader, member);
      } else {
        FoundKeepsConsistent(w, leader, member);
      }
    } else {
      AddNothing(w, leader, member);
    }
  }

  lemma AddNothing(w: World, leader: Entity, member: Entity)
    requires leader !in w.comps || member in w.comps
    ensures AddPartyMember(w, leader, member) == w
  {}

  lemma RequestKeepsConsistent(w: World, e: Entity, other: Entity, reachable: bool, request: Request)
    requires Consistent(w)
    ensures Consistent(ProcessRequest(w, e, other, reachable, request))
  {
    hide Consistent, RemoveComponent, ChangeLeader;
    match request
    case Make =>
      if e !in w.comps || w.comps[e].party.None? {
        FlagsKeepConsistent(w, e, Component(None, true, false));
      }
    case Join =>
      if e in w.comps {
        FlagsKeepConsistent(w, e, w.comps[e].(requested := true));
      }
    case Left => RemoveKeepsConsistent(w, e);
    case ChangeOwner => ChangeLeaderKeepsConsistent(w, e, other);
    case Kick =>
      if other in w.comps {
        FlagsKeepConsistent(w, other, w.comps[other].(kicked := true));
        RemoveKeepsConsistent(w.(comps := w.comps[other := w.comps[other].(kicked := true)]), other);
      }
    case OtherRequest =>
  }

  lemma ReplyKeepsConsistent(w: World, e: Entity, other: Entity, reachable: bool, reply: Reply)
    requires Consistent(w)
    ensures Consistent(ProcessReply(w, e, other, reachable, reply))
  {
    hide Consistent, RemoveComponent, AddPartyMember;
    if reachable && other in w.comps && w.comps[other].requested {
      var answered := w.(comps := w.comps[other := w.comps[other].(requested := false)]);
      FlagsKeepConsistent(w, other, w.comps[other].(requested := false));
      RemoveKeepsConsistent(answered, other);
      AddKeepsConsistent(answered, other, e);
    }
  }

  lemma UpdateKeepsConsistent(w: World, infos: set<Entity>)
    requires Consistent(w)
    ensures Consistent(Update(w, infos))
  {
    var u := Update(w, infos);
    forall x, k | 0 <= k < |u.parties|
      ensures x in u.parties[k].members <==> Belongs(u, x, k)
    {
      assert x in w.parties[k].members <==> Belongs(w, x, k);
    }
  }

  /** Right after update, a component has a party or a pending request. */
  lemma UpdateLeavesNothingStale(w: World, infos: set<Entity>)
    ensures var u := Update(w, infos);
      && (forall e | e in u.comps && e in infos :: u.comps[e].party.Some? || u.comps[e].requested)
      && (forall e | e in w.comps && (w.comps[e].party.Some? || w.comps[e].requested) ::
            e in u.comps && u.comps[e] == w.comps[e])
  {}

  // ---- Runs -----------------------------------------------------------------------------------------------

  datatype Step =
    | Ask(e: Entity, other: Entity, reachable: bool, request: Request)
    | Answer(e: Entity, other: Entity, reachable: bool, reply: Reply)
    | Tick(infos: set<Entity>)
    | Destroy(e: Entity)

  function Next(w: World, step: Step): World {
    match step
    case Ask(e, other, reachable, request) => ProcessRequest(w, e, other, reachable, request)
    case Answer(e, other, reachable, reply) => ProcessReply(w, e, other, reachable, reply)
    case Tick(infos) => Update(w, infos)
    case Destroy(e) => RemoveComponent(w, e)
  }

  function After(w: World, steps: seq<Step>): World
    decreases |steps|
  {
    if |steps| == 0 then w else After(Next(w, steps[0]), steps[1..])
  }

  lemma NextKeepsConsistent(w: World, step: Step)
    requires Consistent(w)
    ensures Consistent(Next(w, step))
  {
    hide Consistent, ProcessRequest, ProcessReply, Update, RemoveComponent;
    match step
    case Ask(e, other, reachable, request) => RequestKeepsConsistent(w, e, other, reachable, request);
    case Answer(e, other, reachable, reply) => ReplyKeepsConsistent(w, e, other, reachable, reply);
    case Tick(infos) => UpdateKeepsConsistent(w, infos);
    case Destroy(e) => RemoveKeepsConsistent(w, e);
  }

  lemma {:induction false} RunKeepsConsistent(w: World, steps: seq<Step>)
    requires Consistent(w)
    ensures Consistent(After(w, steps))
    decreases |steps|
  {
    hide Consistent, Next;
    if |steps| > 0 {
      NextKeepsConsistent(w, steps[0]);
      RunKeepsConsistent(Next(w, steps[0]), steps[1..]);
    }
  }

  const Empty: World := World(map[], [])

  /** In every state reached by any steps: lists and components agree, and nobody is in a party alone. */
  lemma EveryRunConsistent(steps: seq<Step>)
    ensures var w := After(Empty, steps);
      && (forall e, id | 0 <= id < |w.parties| :: e in w.parties[id].members <==> Belongs(w, e, id))
      && (forall id | 0 <= id < |w.parties| :: NoDuplicates(w.parties[id].members))
      && (forall id | 0 <= id < |w.parties| && |w.parties[id].members| > 0 ::
            w.parties[id].leader in w.parties[id].members)
      && (forall e | e in w.comps && w.comps[e].party.Some? ::
            InParty(w, e) && |PartyOf(w, e).members| >= 2)
  {
    hide After, NoDuplicates;
    assert Consistent(Empty);
    RunKeepsConsistent(Empty, steps);
    var w := After(Empty, steps);
    forall e | e in w.comps && w.comps[e].party.Some?
      ensures InParty(w, e) && |PartyOf(w, e).members| >= 2
    {
      assert Belongs(w, e, w.comps[e].party.value);
    }
  }

  // ---- The objects -----------------------------------------------------------------------------------------

  /** The party state of a map: components by entity, and the party objects they share. */
  class PartySystem {
    var comps: map<Entity, Component>
    var parties: seq<PartyBase>

    constructor ()
      ensures State() == Empty
    {
      comps, parties := map[], [];
    }

    function State(): World
      reads this
    {
      World(comps, parties)
    }

    method Remove(e: Entity)
      modifies this
      ensures State() == RemoveComponent(old(State()), e)
      decreases |comps|
    {
      if e !in comps {
        return;
      }
      var c := comps[e];
      RemoveShrinks(comps, e);
      comps := comps - {e};
      if c.party.None? || c.party.value >= |parties| {
        return;
      }
      var party := parties[c.party.value];
      if !party.IsMember(e) {
        return;
      }
      parties := parties[c.party.value := party.Removed(e)];
      if |parties[c.party.value].members| == 1 {
        Remove(parties[c.party.value].members[0]);
      }
    }

    /** The loop of update, over the entities that have a BasicInfo, in any order. */
    method Tick(infos: seq<Entity>)
      modifies this
      ensures State() == Update(old(State()), Elements(infos))
    {
      ghost var w := State();
      for i := 0 to |infos|
        invariant State() == Update(w, Elements(infos[..i]))
      {
        var e := infos[i];
        assert Elements(infos[..i + 1]) == Elements(infos[..i]) + {e};
        if e in comps && Stale(comps[e]) {
          ghost var before := State();
          Remove(e);
          assert State() == before.(comps := before.comps - {e});
        }
        assert State().comps == Update(w, Elements(infos[..i + 1])).comps;
      }
      assert infos[..|infos|] == infos;
    }

    method Add(leader: Entity, member: Entity)
      modifies this
      ensures State() == AddPartyMember(old(State()), leader, member)
    {
      if leader !in comps || member in comps {
        return;
      }
      var c := comps[leader];
      var id := if c.party.Some? then c.party.value else |parties|;
      if c.party.None? {
        parties := parties + [PartyBase(leader, [leader])];
        comps := comps[leader := c.(party := Some(id))];
      }
      comps := comps[member := Component(Some(id), false, false)];
      if id < |parties| {
        parties := parties[id := parties[id].Added(member)];
      }
    }

    method HandleRequest(e: Entity, other: Entity, reachable: bool, request: Request)
      modifies this
      ensures State() == ProcessRequest(old(State()), e, other, reachable, request)
    {
      hide RemoveComponent;
      if !reachable {
        return;
      }
      match request
      case Make =>
        if !(e in comps && comps[e].party.Some?) {
          comps := comps[e := Component(None, true, false)];
        }
      case Join =>
        if e in comps && comps[e].party.Some? {
          comps := comps[e := comps[e].(requested := true)];
        }
      case Left => Remove(e);
      case ChangeOwner =>
        if InParty(State(), e) && PartyOf(State(), e).leader == e {
          var id := comps[e].party.value;
          if parties[id].IsMember(other) && other != parties[id].leader {
            parties := parties[id := parties[id].(leader := other)];
          }
        }
      case Kick =>
        if InParty(State(), e) && PartyOf(State(), e).IsMember(other) && other in comps {
          comps := comps[other := comps[other].(kicked := true)];
          Remove(other);
        }
      case OtherRequest =>
    }

    method HandleReply(e: Entity, other: Entity, reachable: bool, reply: Reply)
      modifies this
      ensures State() == ProcessReply(old(State()), e, other, reachable, reply)
    {
      hide RemoveComponent, AddPartyMember;
      if !reachable || other !in comps || !comps[other].requested {
        return;
      }
      match reply
      case Busy =>
        comps := comps[other := comps[other].(requested := false)];
        if comps[other].party.None? { Remove(other); }
      case Reject =>
        comps := comps[other := comps[other].(requested := false)];
        if comps[other].party.None? { Remove(other); }
      case AcceptMake =>
        comps := comps[other := comps[other].(requested := false)];
        Add(other, e);
      case AcceptJoin =>
        comps := comps[other := comps[other].(requested := false)];
        Add(other, e);
      case OtherReply =>
    }
  }
}
