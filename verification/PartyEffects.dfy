/**
  What each party message does to members, leaders and components, in a consistent world.
 */
module PartyEffects {
  import opened Options
  import opened Party

  // ---- Leaving --------------------------------------------------------------------------------------

  /** From before to after, exactly e is gone and the others keep their order; a leaver's place goes to the first. */
  ghost predicate OneLess(before: PartyBase, after: PartyBase, e: Entity) {
    && (exists k | 0 <= k <= |after.members| ::
          before.members == after.members[..k] + [e] + after.members[k..])
    && (before.leader != e ==> after.leader == before.leader)
    && (before.leader == e && |after.members| > 0 ==> after.leader == after.members[0])
  }

  /** e has left its party, if any: a pair is dissolved, a larger party goes on. Nothing else has changed. */
  ghost predicate Departed(w: World, u: World, e: Entity) {
    && e in w.comps && |u.parties| == |w.parties|
    && (forall k | 0 <= k < |w.parties| && !Belongs(w, e, k) :: u.parties[k] == w.parties[k])
    && if InParty(w, e) then
         var id := w.comps[e].party.value;
         if |w.parties[id].members| == 2 then
           u.comps == w.comps - (set x | x in w.parties[id].members) && u.parties[id].members == []
         else
           u.comps == w.comps - {e} && OneLess(w.parties[id], u.parties[id], e)
       else u.comps == w.comps - {e}
  }

  lemma RemovedIsOneLess(p: PartyBase, e: Entity)
    requires e in p.members
    ensures OneLess(p, p.Removed(e), e)
  {
    RemovedOrder(p, e);
    assert IndexOf(p.members, e) <= |p.Removed(e).members|;
  }

  lemma InPartyIsMember(w: World, e: Entity)
    requires Consistent(w) && InParty(w, e)
    ensures NoDuplicates(PartyOf(w, e).members) && e in PartyOf(w, e).members
  {
    hide NoDuplicates;
    var id := w.comps[e].party.value;
    assert Belongs(w, e, id);
    assert Sound(w.parties[id]);
  }

  lemma RemovalDeparts(w: World, e: Entity)
    requires Consistent(w) && e in w.comps
    ensures Departed(w, RemoveComponent(w, e), e)
  {
    hide Consistent, OneLess, NoDuplicates, RemoveComponent;
    RemovalEffect(w, e);
    if InParty(w, e) {
      InPartyIsMember(w, e);
      RemovedIsOneLess(PartyOf(w, e), e);
    }
  }

  // ---- Requests --------------------------------------------------------------------------------------

  /** Make and Join leave all parties as they are and set the request flag of whoever may ask. */
  lemma AskingOnlyFlags(w: World, e: Entity, other: Entity)
    ensures ProcessRequest(w, e, other, true, Make) ==
      if e in w.comps && w.comps[e].party.Some? then w
      else World(w.comps[e := Component(None, true, false)], w.parties)
    ensures ProcessRequest(w, e, other, true, Join) ==
      if e in w.comps && w.comps[e].party.Some? then World(w.comps[e := w.comps[e].(requested := true)], w.parties)
      else w
  {}

  /** Left takes exactly the leaver out. */
  lemma LeftDeparts(w: World, e: Entity, other: Entity)
    requires Consistent(w)
    ensures var u := ProcessRequest(w, e, other, true, Left);
      if e in w.comps then Departed(w, u, e) else u == w
  {
    hide Consistent, Departed;
    if e in w.comps {
      RemovalDeparts(w, e);
    }
  }

  /** Kick takes exactly the other one out, if the two are in the same party. */
  lemma KickDeparts(w: World, e: Entity, other: Entity)
    requires Consistent(w)
    ensures var u := ProcessRequest(w, e, other, true, Kick);
      if InParty(w, e) && Belongs(w, other, w.comps[e].party.value) then Departed(w, u, other) else u == w
  {
    hide Consistent, Departed, RemoveComponent;
    MembersBelong(w, e, other);
    if InParty(w, e) && Belongs(w, other, w.comps[e].party.value) {
      var c := w.comps[other].(kicked := true);
      FlagsKeepConsistent(w, other, c);
      var marked := w.(comps := w.comps[other := c]);
      RemovalDeparts(marked, other);
      DepartedUnmarked(w, other, c, RemoveComponent(marked, other));
    }
  }

  lemma MembersBelong(w: World, e: Entity, other: Entity)
    requires Consistent(w)
    ensures InParty(w, e) ==> (PartyOf(w, e).IsMember(other) <==> Belongs(w, other, w.comps[e].party.value))
  {}

  lemma DepartedUnmarked(w: World, e: Entity, c: Component, u: World)
    requires e in w.comps && c.party == w.comps[e].party && Consistent(w)
    requires Departed(w.(comps := w.comps[e := c]), u, e)
    ensures Departed(w, u, e)
  {
    hide OneLess, Consistent, NoDuplicates;
    var marked := w.(comps := w.comps[e := c]);
    assert forall k :: Belongs(marked, e, k) <==> Belongs(w, e, k);
    assert marked.comps - {e} == w.comps - {e};
    if InParty(w, e) {
      InPartyIsMember(w, e);
      var gone := set x | x in PartyOf(w, e).members;
      assert e in gone;
      assert marked.comps - gone == w.comps - gone;
    }
  }

  /** Only the leader can hand over, and only to another member; nothing else changes. */
  lemma OwnerChanges(w: World, e: Entity, other: Entity)
    ensures var u := ProcessRequest(w, e, other, true, ChangeOwner);
      if InParty(w, e) && PartyOf(w, e).leader == e && other in PartyOf(w, e).members then
        && u.comps == w.comps && |u.parties| == |w.parties|
        && u.parties[w.comps[e].party.value] == PartyBase(other, PartyOf(w, e).members)
        && forall k | 0 <= k < |w.parties| && k != w.comps[e].party.value :: u.parties[k] == w.parties[k]
      else u == w
  {}

  lemma NothingAsked(w: World, e: Entity, other: Entity, request: Request)
    ensures ProcessRequest(w, e, other, false, request) == w
    ensures ProcessRequest(w, e, other, true, OtherRequest) == w
  {}

  // ---- Replies ----------------------------------------------------------------------------------------

  predicate Accepting(reply: Reply) {
    reply == AcceptMake || reply == AcceptJoin
  }

  predicate Pending(w: World, other: Entity) {
    other in w.comps && w.comps[other].requested
  }

  /** Accepting makes e the last member of other's party, which is founded if there was none. */
  lemma AcceptingJoins(w: World, e: Entity, other: Entity, reply: Reply)
    requires Consistent(w) && Pending(w, other) && Accepting(reply) && e !in w.comps
    ensures var u, c := ProcessReply(w, e, other, true, reply), w.comps[other];
      if c.party.Some? then
        var id := c.party.value;
        && u.comps == w.comps[other := c.(requested := false)][e := Component(Some(id), false, false)]
        && id < |w.parties| == |u.parties|
        && u.parties[id] == PartyBase(w.parties[id].leader, w.parties[id].members + [e])
        && forall k | 0 <= k < |w.parties| && k != id :: u.parties[k] == w.parties[k]
      else
        var id := |w.parties|;
        && u.comps == w.comps[other := Component(Some(id), false, c.kicked)][e := Component(Some(id), false, false)]
        && u.parties == w.parties + [PartyBase(other, [other, e])]
  {
    hide Sound;
    var c := w.comps[other];
    if c.party.Some? {
      assert !Belongs(w, e, c.party.value);
      assert e !in w.parties[c.party.value].members;
    } else {
      assert e != other;
      assert [other] + [e] == [other, e];
    }
  }

  /** Every other reply clears the request at most; a refused asker without a party loses the component. */
  lemma OtherRepliesClear(w: World, e: Entity, other: Entity, reachable: bool, reply: Reply)
    requires !(reachable && Pending(w, other) && Accepting(reply) && e !in w.comps)
    ensures var u := ProcessReply(w, e, other, reachable, reply);
      if !reachable || !Pending(w, other) || reply == OtherReply then u == w
      else if Accepting(reply) || w.comps[other].party.Some? then
        u == World(w.comps[other := w.comps[other].(requested := false)], w.parties)
      else u == World(w.comps - {other}, w.parties)
  {
    if reachable && Pending(w, other) && w.comps[other].party.None? && !Accepting(reply) {
      var answered := w.(comps := w.comps[other := w.comps[other].(requested := false)]);
      assert answered.comps - {other} == w.comps - {other};
    }
  }

  /** One entity asks, another accepts: the two are a party led by the first. */
  lemma TwoMakeAParty(a: Entity, b: Entity)
    requires a != b
    ensures After(Empty, [Ask(a, b, true, Make), Answer(b, a, true, AcceptMake)]) ==
      World(map[a := Component(Some(0), false, false), b := Component(Some(0), false, false)], [PartyBase(a, [a, b])])
  {
    var steps := [Ask(a, b, true, Make), Answer(b, a, true, AcceptMake)];
    assert steps[1..] == [Answer(b, a, true, AcceptMake)] && steps[1..][1..] == [];
    var w1 := Next(Empty, steps[0]);
    assert w1 == World(map[a := Component(None, true, false)], []);
    var w2 := Next(w1, steps[1]);
    assert [a] + [b] == [a, b];
    assert w2.comps == map[a := Component(Some(0), false, false), b := Component(Some(0), false, false)];
    assert w2.parties == [PartyBase(a, [a, b])];
    assert After(w2, []) == w2;
    assert After(w1, steps[1..]) == After(w2, []);
  }

  // ---- Updates ----------------------------------------------------------------------------------------

  /** Update removes exactly the components that have neither a party nor a request, of entities with a BasicInfo. */
  lemma UpdateRemovesExactly(w: World, infos: set<Entity>, e: Entity)
    ensures var u := Update(w, infos);
      && u.parties == w.parties
      && (e in u.comps <==> e in w.comps && !(e in infos && w.comps[e].party.None? && !w.comps[e].requested))
      && (e in u.comps ==> u.comps[e] == w.comps[e])
  {}
}
