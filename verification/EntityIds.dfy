/**
  Entity ids on a map: an allocator that reuses released ids, entities created and destroyed
  through deferred commands, and the lookup maps by id, by name and by item id. Entity handles are
  versioned, so a destroyed handle never becomes valid again.
 */
module EntityIds {
  import opened Options

  const IDS := 0x1_0000

  type Handle = nat

  // ---- The allocator ---------------------------------------------------------------------

  /** Released ids, and how many different ids the 16-bit counter has produced. */
  datatype IdManager = IdManager(free: set<nat>, minted: nat)

  /** The id get_free_id hands out: any released one if there is one, otherwise the counter. */
  predicate Offers(m: IdManager, id: nat) {
    if m.free != {} then id in m.free else id == m.minted % IDS
  }

  function Given(m: IdManager, id: nat): IdManager {
    if m.free != {} then m.(free := m.free - {id}) else m.(minted := m.minted + 1)
  }

  function Released(m: IdManager, id: nat): IdManager {
    m.(free := m.free + {id})
  }

  /** An id that has been handed out and not given back. */
  predicate Out(m: IdManager, id: nat) {
    id < m.minted && id !in m.free
  }

  /** The counter has not come round. */
  predicate Sane(m: IdManager) {
    m.minted <= IDS && forall id | id in m.free :: id < m.minted
  }

  function Outstanding(m: IdManager): int {
    m.minted - |m.free|
  }

  /** With fewer than 65536 ids outstanding, the id offered is not one of them, and goes out. */
  lemma GivenIsNew(m: IdManager, id: nat)
    requires Sane(m) && Outstanding(m) < IDS && Offers(m, id)
    ensures !Out(m, id) && Sane(Given(m, id)) && Out(Given(m, id), id)
    ensures forall x :: x != id ==> (Out(Given(m, id), x) <==> Out(m, x))
    ensures Outstanding(Given(m, id)) == Outstanding(m) + 1
  {
    if m.free == {} {
      assert |m.free| == 0;
    }
  }

  lemma ReleasedGoesBack(m: IdManager, id: nat)
    requires Sane(m) && Out(m, id)
    ensures Sane(Released(m, id)) && !Out(Released(m, id), id)
    ensures forall x :: x != id ==> (Out(Released(m, id), x) <==> Out(m, x))
    ensures Outstanding(Released(m, id)) == Outstanding(m) - 1
  {}

  /** With all ids outstanding, the next one handed out is already in use. */
  lemma ExhaustedRepeats(m: IdManager, id: nat)
    requires Sane(m) && Outstanding(m) == IDS && Offers(m, id)
    ensures Out(m, id)
  {
    assert |m.free| == 0;
    assert m.free == {};
  }

  /** The id on offer is not in use exactly while fewer than 65536 are outstanding. */
  lemma OfferIsNewIff(m: IdManager, id: nat)
    requires Sane(m) && Offers(m, id)
    ensures !Out(m, id) <==> Outstanding(m) < IDS
  {
    hide Out, Offers;
    if Outstanding(m) < IDS {
      GivenIsNew(m, id);
    } else {
      ExhaustedRepeats(m, id);
    }
  }

  // ---- Entities -----------------------------------------------------------------------------

  /** The components that matter here; an entity with an Npc component keeps its id when destroyed. */
  datatype Info = Info(id: Option<nat>, name: string, keepsId: bool, onMap: bool)

  datatype Command = DestroyOne(h: Handle) | DestroyMany(hs: seq<Handle>)

  datatype World = World(
    ids: IdManager, live: map<Handle, Info>, used: set<Handle>,
    creating: seq<Handle>, deleting: seq<Command>,
    byId: map<nat, Handle>, byName: map<string, Handle>, byItem: map<nat, Handle>)

  /** registerEntity: an empty name or the id 0 is not registered. */
  function Registered(w: World, h: Handle, id: nat, name: string): World {
    if name == "" || id == 0 then w
    else w.(byId := w.byId[id := h], byName := w.byName[name := h])
  }

  /** A new entity that gets its id at once. */
  function Born(w: World, h: Handle, name: string, id: nat): World {
    w.(ids := Given(w.ids, id), used := w.used + {h}, live := w.live[h := Info(Some(id), name, false, false)])
  }

  /** loadCharacter. */
  function Loaded(w: World, h: Handle, name: string, id: nat): World {
    Registered(Born(w, h, name, id), h, id, name)
  }

  /** loadCharacter of a character that is not stored: the entity is created and destroyed. */
  function NotLoaded(w: World, h: Handle): World {
    w.(used := w.used + {h})
  }

  function ItemRegistered(w: World, h: Handle, id: nat): World {
    w.(byItem := w.byItem[id := h])
  }

  /** buildItemEntity. */
  function ItemBuilt(w: World, h: Handle, id: nat): World {
    ItemRegistered(Born(w, h, "", id), h, id)
  }

  /** create_npc and create_warpgate: the entity exists at once, its id comes with the next update. */
  function Requested(w: World, h: Handle, npc: bool): World {
    w.(used := w.used + {h}, live := w.live[h := Info(None, "", npc, false)], creating := w.creating + [h])
  }

  /** One create command. */
  function Created(w: World, id: nat): World
    requires |w.creating| > 0
  {
    var h := w.creating[0];
    var next := w.(creating := w.creating[1..]);
    if h in w.live then next.(ids := Given(w.ids, id), live := w.live[h := w.live[h].(id := Some(id))]) else next
  }

  function OnMap(w: World, h: Handle): World {
    if h in w.live then w.(live := w.live[h := w.live[h].(onMap := true)]) else w
  }

  /** destroy: only entities on the map, and each request takes it off the map. */
  function DestroyRequested(w: World, h: Handle): World {
    if h in w.live && w.live[h].onMap then
      w.(live := w.live[h := w.live[h].(onMap := false)], deleting := w.deleting + [DestroyOne(h)])
    else w
  }

  function BulkRequested(w: World, hs: seq<Handle>): World {
    w.(deleting := w.deleting + [DestroyMany(hs)])
  }

  /** The command of destroy: unregister and release unless it is an Npc, then destroy. */
  function DestroyedOne(w: World, h: Handle): World {
    if h !in w.live then w
    else
      var info := w.live[h];
      var gone := w.(live := w.live - {h});
      if info.keepsId || info.id.None? then gone
      else
        var id := info.id.value;
        gone.(byName := w.byName - {info.name}, byId := w.byId - {id}, ids := Released(w.ids, id))
  }

  /** The command of bulk_destroy: destroyed without releasing the id. */
  function DestroyedMany(w: World, hs: seq<Handle>): World {
    w.(live := w.live - set h | h in hs)
  }

  function Deleted(w: World): World
    requires |w.deleting| > 0
  {
    var next := w.(deleting := w.deleting[1..]);
    match w.deleting[0]
    case DestroyOne(h) => DestroyedOne(next, h)
    case DestroyMany(hs) => DestroyedMany(next, hs)
  }

  // ---- Runs --------------------------------------------------------------------------------------

  datatype Step =
    | Load(h: Handle, name: string, id: nat)
    | LoadNothing(h: Handle)
    | BuildItem(h: Handle, id: nat)
    | Request(h: Handle, npc: bool)
    | RunCreate(id: nat)
    | EnterMap(h: Handle)
    | Destroy(h: Handle)
    | Bulk(hs: seq<Handle>)
    | RunDelete

  /** A step that takes an id takes the one on offer; handles of new entities are new. */
  predicate Enabled(w: World, s: Step) {
    match s
    case Load(h, _, id) => h !in w.used && Offers(w.ids, id)
    case LoadNothing(h) => h !in w.used
    case BuildItem(h, id) => h !in w.used && Offers(w.ids, id)
    case Request(h, _) => h !in w.used
    case RunCreate(id) => |w.creating| > 0 && (w.creating[0] in w.live ==> Offers(w.ids, id))
    case EnterMap(_) => true
    case Destroy(_) => true
    case Bulk(_) => true
    case RunDelete => |w.deleting| > 0
  }

  predicate TakesId(w: World, s: Step)
    requires Enabled(w, s)
  {
    s.Load? || s.BuildItem? || (s.RunCreate? && w.creating[0] in w.live)
  }

  function Next(w: World, s: Step): World
    requires Enabled(w, s)
  {
    match s
    case Load(h, name, id) => Loaded(w, h, name, id)
    case LoadNothing(h) => NotLoaded(w, h)
    case BuildItem(h, id) => ItemBuilt(w, h, id)
    case Request(h, npc) => Requested(w, h, npc)
    case RunCreate(id) => Created(w, id)
    case EnterMap(h) => OnMap(w, h)
    case Destroy(h) => DestroyRequested(w, h)
    case Bulk(hs) => BulkRequested(w, hs)
    case RunDelete => Deleted(w)
  }

  const Empty: World := World(IdManager({}, 0), map[], {}, [], [], map[], map[], map[])

  /** Live entities carry ids that are out, and no two the same one. */
  ghost predicate Distinct(w: World) {
    && (forall h | h in w.live && w.live[h].id.Some? :: Out(w.ids, w.live[h].id.value))
    && (forall g, h | g in w.live && h in w.live && g != h && w.live[g].id.Some? :: w.live[g].id != w.live[h].id)
  }

  /** Whoever is found alive through a map has the id or the name it was looked up by. */
  ghost predicate Truthful(w: World) {
    && (forall id | id in w.byId && w.byId[id] in w.live :: w.live[w.byId[id]].id == Some(id))
    && (forall name | name in w.byName && w.byName[name] in w.live :: w.live[w.byName[name]].name == name)
    && (forall id | id in w.byItem && w.byItem[id] in w.live :: w.live[w.byItem[id]].id == Some(id))
  }

  /** Handles in use are known, and an entity waiting for its create command has no id yet. */
  ghost predicate Orderly(w: World) {
    && w.live.Keys <= w.used
    && (forall id | id in w.byId :: w.byId[id] in w.used)
    && (forall name | name in w.byName :: w.byName[name] in w.used)
    && (forall id | id in w.byItem :: w.byItem[id] in w.used)
    && (forall i | 0 <= i < |w.creating| :: w.creating[i] in w.used)
    && (forall i, j | 0 <= i < j < |w.creating| :: w.creating[i] != w.creating[j])
    && (forall i | 0 <= i < |w.creating| && w.creating[i] in w.live :: w.live[w.creating[i]].id.None?)
  }

  ghost predicate Inv(w: World) {
    Sane(w.ids) && Distinct(w) && Truthful(w) && Orderly(w)
  }

  // ---- Preservation ---------------------------------------------------------------------------------

  /** A new live entity with a new id. */
  lemma BirthKeepsInv(w: World, h: Handle, name: string, id: nat)
    requires Inv(w) && Outstanding(w.ids) < IDS && h !in w.used && Offers(w.ids, id)
    ensures Inv(Born(w, h, name, id))
  {
    hide Out, Sane, Offers, Given;
    GivenIsNew(w.ids, id);
  }

  lemma RegisterKeepsInv(w: World, h: Handle, id: nat, name: string)
    requires Inv(w) && h in w.live && w.live[h].id == Some(id) && w.live[h].name == name
    ensures Inv(Registered(w, h, id, name))
  {
    hide Out, Sane;
  }

  lemma RegisterItemKeepsInv(w: World, h: Handle, id: nat)
    requires Inv(w) && h in w.live && w.live[h].id == Some(id)
    ensures Inv(ItemRegistered(w, h, id))
  {
    hide Out, Sane;
  }

  lemma UnusedKeepsInv(w: World, h: Handle)
    requires Inv(w)
    ensures Inv(NotLoaded(w, h))
  {
    hide Out, Sane;
  }

  lemma RequestKeepsInv(w: World, h: Handle, npc: bool)
    requires Inv(w) && h !in w.used
    ensures Inv(Requested(w, h, npc))
  {
    hide Out, Sane;
  }

  lemma CreateKeepsInv(w: World, id: nat)
    requires Inv(w) && |w.creating| > 0
    requires w.creating[0] in w.live ==> Outstanding(w.ids) < IDS && Offers(w.ids, id)
    ensures Inv(Created(w, id))
  {
    hide Out, Sane, Offers, Given;
    var h := w.creating[0];
    var u := Created(w, id);
    assert forall i | 0 <= i < |u.creating| :: u.creating[i] == w.creating[i + 1];
    if h in w.live {
      GivenIsNew(w.ids, id);
      assert forall i | 0 <= i < |u.creating| :: u.creating[i] != h;
      assert forall k | k in w.byId :: w.byId[k] != h;
      assert forall k | k in w.byItem :: w.byItem[k] != h;
    }
  }

  lemma MarkKeepsInv(w: World, h: Handle, onMap: bool)
    requires Inv(w) && h in w.live
    ensures Inv(w.(live := w.live[h := w.live[h].(onMap := onMap)]))
  {
    hide Out, Sane;
  }

  /** Removing entities keeps everything; releasing the id of the only holder does too. */
  lemma DestroyOneKeepsInv(w: World, h: Handle)
    requires Inv(w)
    ensures Inv(DestroyedOne(w, h))
  {
    hide Out, Sane, Released;
    if h in w.live && !w.live[h].keepsId && w.live[h].id.Some? {
      ReleasedGoesBack(w.ids, w.live[h].id.value);
    }
  }

  lemma DestroyManyKeepsInv(w: World, hs: seq<Handle>)
    requires Inv(w)
    ensures Inv(DestroyedMany(w, hs))
  {
    hide Out, Sane;
  }

  lemma CommandsAreNeutral(w: World, commands: seq<Command>)
    requires Inv(w)
    ensures Inv(w.(deleting := commands))
  {
    hide Out, Sane;
  }

  lemma NextKeepsInv(w: World, s: Step)
    requires Inv(w) && Enabled(w, s) && (TakesId(w, s) ==> Outstanding(w.ids) < IDS)
    ensures Inv(Next(w, s))
  {
    hide Inv, Outstanding, Offers, Registered, ItemRegistered, NotLoaded, Requested, Created;
    hide DestroyedOne, DestroyedMany;
    match s
    case Load(h, name, id) =>
      BirthKeepsInv(w, h, name, id);
      RegisterKeepsInv(Born(w, h, name, id), h, id, name);
    case LoadNothing(h) => UnusedKeepsInv(w, h);
    case BuildItem(h, id) =>
      BirthKeepsInv(w, h, "", id);
      RegisterItemKeepsInv(Born(w, h, "", id), h, id);
    case Request(h, npc) => RequestKeepsInv(w, h, npc);
    case RunCreate(id) => CreateKeepsInv(w, id);
    case EnterMap(h) =>
      if h in w.live {
        MarkKeepsInv(w, h, true);
      }
    case Destroy(h) =>
      if h in w.live && w.live[h].onMap {
        MarkKeepsInv(w, h, false);
        CommandsAreNeutral(w.(live := w.live[h := w.live[h].(onMap := false)]), w.deleting + [DestroyOne(h)]);
      }
    case Bulk(hs) => CommandsAreNeutral(w, w.deleting + [DestroyMany(hs)]);
    case RunDelete =>
      var rest := w.(deleting := w.deleting[1..]);
      CommandsAreNeutral(w, w.deleting[1..]);
      match w.deleting[0] {
        case DestroyOne(h) => DestroyOneKeepsInv(rest, h);
        case DestroyMany(hs) => DestroyManyKeepsInv(rest, hs);
      }
  }

  /** Every step of the path is enabled when it is taken. */
  predicate Path(w: World, steps: seq<Step>)
    decreases |steps|
  {
    |steps| == 0 || (Enabled(w, steps[0]) && Path(Next(w, steps[0]), steps[1..]))
  }

  function Last(w: World, steps: seq<Step>): World
    requires Path(w, steps)
    decreases |steps|
  {
    if |steps| == 0 then w else Last(Next(w, steps[0]), steps[1..])
  }

  predicate Within(limit: nat, w: World, s: Step)
    requires Enabled(w, s)
  {
    TakesId(w, s) ==> Outstanding(w.ids) < limit
  }

  /** A path on which an id is only taken while fewer than `limit` are outstanding. */
  predicate Run(limit: nat, w: World, steps: seq<Step>): (r: bool)
    ensures r ==> Path(w, steps)
    decreases |steps|
  {
    |steps| == 0 || (Enabled(w, steps[0]) && Within(limit, w, steps[0]) && Run(limit, Next(w, steps[0]), steps[1..]))
  }

  lemma {:induction false} RunKeepsInv(limit: nat, w: World, steps: seq<Step>)
    requires limit <= IDS && Inv(w) && Run(limit, w, steps)
    ensures Inv(Last(w, steps))
    decreases |steps|
  {
    hide Inv, Enabled, TakesId, Next, Outstanding;
    if |steps| > 0 {
      NextKeepsInv(w, steps[0]);
      RunKeepsInv(limit, Next(w, steps[0]), steps[1..]);
    }
  }

  lemma EmptyInv()
    ensures Inv(Empty)
  {}

  /** In every run with fewer than 65536 ids outstanding, live ids are distinct and the lookup maps tell the truth. */
  lemma IdsDistinctInEveryRun(steps: seq<Step>)
    requires Run(IDS, Empty, steps)
    ensures var w := Last(Empty, steps); Distinct(w) && Truthful(w)
  {
    hide Run, Last, Path;
    EmptyInv();
    RunKeepsInv(IDS, Empty, steps);
  }

  /** The next delete command gives this id back. */
  predicate Releases(w: World, id: nat) {
    && |w.deleting| > 0 && w.deleting[0].DestroyOne? && w.deleting[0].h in w.live
    && var info := w.live[w.deleting[0].h]; !info.keepsId && info.id == Some(id)
  }

  /** A delete command releases only an id that is out. */
  lemma ReleasesOnlyWhatIsOut(w: World)
    requires Inv(w) && |w.deleting| > 0
    ensures forall id | Releases(w, id) ::
      Out(w.ids, id) && Deleted(w).ids == Released(w.ids, id) && !Out(Deleted(w).ids, id)
    ensures (forall id :: !Releases(w, id)) ==> Deleted(w).ids == w.ids
  {
    hide Sane;
    if Deleted(w).ids != w.ids {
      assert Releases(w, w.live[w.deleting[0].h].id.value);
    }
  }

  // ---- Who can be found ------------------------------------------------------------------------------

  predicate FoundById(w: World, h: Handle, id: nat) {
    id in w.byId && w.byId[id] == h
  }

  /** Found through the id map are exactly those with a name and an id other than 0. */
  ghost predicate Findable(w: World) {
    forall h | h in w.live && w.live[h].id.Some? ::
      FoundById(w, h, w.live[h].id.value) <==> w.live[h].id.value != 0 && w.live[h].name != ""
  }

  lemma LoadKeepsFindable(w: World, h: Handle, name: string, id: nat)
    requires Inv(w) && Findable(w) && h !in w.used && Outstanding(w.ids) < IDS && Offers(w.ids, id)
    ensures Findable(Loaded(w, h, name, id))
  {
    hide Sane, Offers, Given, Outstanding, Out;
    GivenIsNew(w.ids, id);
    forall g | g in w.live && w.live[g].id.Some?
      ensures w.live[g].id.value != id
    {
      assert Out(w.ids, w.live[g].id.value);
    }
  }

  lemma DestroyKeepsFindable(w: World, h: Handle)
    requires Inv(w) && Findable(w)
    ensures Findable(DestroyedOne(w, h))
  {
    hide Sane, Out, Released;
  }

  lemma CreateKeepsFindable(w: World, id: nat)
    requires Inv(w) && Findable(w) && Unnamed(w) && |w.creating| > 0
    ensures Findable(Created(w, id))
  {
    hide Sane, Out, Given;
    var h := w.creating[0];
    if h in w.live {
      assert forall k | k in w.byId :: w.byId[k] != h;
    }
  }

  /** An entity that waits for its id has no name. */
  ghost predicate Unnamed(w: World) {
    forall h | h in w.live && w.live[h].id.None? :: w.live[h].name == ""
  }

  lemma StepKeepsFindable(w: World, s: Step)
    requires Inv(w) && Findable(w) && Unnamed(w) && Enabled(w, s) && Within(IDS, w, s)
    ensures Findable(Next(w, s)) && Unnamed(Next(w, s))
  {
    hide Sane, Out, Offers, Given, Released, Outstanding, Distinct, Truthful;
    match s
    case Load(h, name, id) => LoadKeepsFindable(w, h, name, id);
    case LoadNothing(h) =>
    case BuildItem(h, id) =>
    case Request(h, npc) =>
    case RunCreate(id) => CreateKeepsFindable(w, id);
    case EnterMap(h) =>
    case Destroy(h) =>
    case Bulk(hs) =>
    case RunDelete =>
      if w.deleting[0].DestroyOne? {
        var rest := w.(deleting := w.deleting[1..]);
        CommandsAreNeutral(w, w.deleting[1..]);
        DestroyKeepsFindable(rest, w.deleting[0].h);
      }
  }

  lemma {:induction false} RunKeepsFindable(w: World, steps: seq<Step>)
    requires Inv(w) && Findable(w) && Unnamed(w) && Run(IDS, w, steps)
    ensures Findable(Last(w, steps))
    decreases |steps|
  {
    hide Inv, Findable, Unnamed, Enabled, Within, Next;
    if |steps| > 0 {
      StepKeepsFindable(w, steps[0]);
      StepKeepsInv(w, steps[0]);
      RunKeepsFindable(Next(w, steps[0]), steps[1..]);
    }
  }

  lemma StepKeepsInv(w: World, s: Step)
    requires Inv(w) && Enabled(w, s) && Within(IDS, w, s)
    ensures Inv(Next(w, s))
  {
    hide Inv, Enabled, Next, TakesId, Outstanding;
    NextKeepsInv(w, s);
  }

  /** In every run, a live named entity is found by its id exactly when that id is not 0. */
  lemma FoundIffNotZero(steps: seq<Step>, h: Handle)
    requires Run(IDS, Empty, steps)
    ensures var w := Last(Empty, steps);
      h in w.live && w.live[h].id.Some? && w.live[h].name != "" ==>
        (FoundById(w, h, w.live[h].id.value) <==> w.live[h].id.value != 0)
  {
    hide Run, Last, Path;
    EmptyInv();
    RunKeepsFindable(Empty, steps);
  }

  /** The first character loaded on a map gets id 0 and is in neither map. */
  lemma FirstIsNotFound(h: Handle, name: string)
    ensures Run(IDS, Empty, [Load(h, name, 0)])
    ensures var w := Last(Empty, [Load(h, name, 0)]);
      h in w.live && w.live[h].name == name && w.live[h].id == Some(0) && w.byId == map[] && w.byName == map[]
  {
    var steps := [Load(h, name, 0)];
    var w := Next(Empty, steps[0]);
    assert steps[1..] == [];
    assert Run(IDS, w, []) && Last(w, []) == w;
  }

  // ---- Every hand-out is released at most once -------------------------------------------------------

  function One(b: bool): nat {
    if b then 1 else 0
  }

  predicate HandsOut(w: World, s: Step, id: nat)
    requires Enabled(w, s)
  {
    TakesId(w, s) && s.id == id
  }

  predicate GivesBack(w: World, s: Step, id: nat) {
    s.RunDelete? && Releases(w, id)
  }

  function HandOuts(w: World, steps: seq<Step>, id: nat): nat
    requires Path(w, steps)
    decreases |steps|
  {
    if |steps| == 0 then 0
    else One(HandsOut(w, steps[0], id)) + HandOuts(Next(w, steps[0]), steps[1..], id)
  }

  function Returns(w: World, steps: seq<Step>, id: nat): nat
    requires Path(w, steps)
    decreases |steps|
  {
    if |steps| == 0 then 0
    else One(GivesBack(w, steps[0], id)) + Returns(Next(w, steps[0]), steps[1..], id)
  }

  lemma StepBalances(w: World, s: Step, id: nat)
    requires Inv(w) && Enabled(w, s) && Within(IDS, w, s)
    ensures One(Out(w.ids, id)) + One(HandsOut(w, s, id)) == One(Out(Next(w, s).ids, id)) + One(GivesBack(w, s, id))
  {
    hide Distinct, Truthful, Orderly, Out, Offers, Given, Released, Outstanding, Releases, DestroyedOne;
    if TakesId(w, s) {
      assert Next(w, s).ids == Given(w.ids, s.id);
      GivenIsNew(w.ids, s.id);
    } else if s.RunDelete? {
      ReleaseBalances(w, id);
    } else {
      assert Next(w, s).ids == w.ids;
    }
  }

  lemma ReleaseBalances(w: World, id: nat)
    requires Inv(w) && |w.deleting| > 0
    ensures One(Out(w.ids, id)) == One(Out(Deleted(w).ids, id)) + One(Releases(w, id))
  {
    hide Distinct, Truthful, Orderly, Out, Released, Deleted, Releases;
    ReleasesOnlyWhatIsOut(w);
    if k :| Releases(w, k) {
      ReleasedGoesBack(w.ids, k);
      OneRelease(w, id, k);
    }
  }

  lemma OneRelease(w: World, id: nat, k: nat)
    requires Releases(w, k)
    ensures Releases(w, id) <==> id == k
  {}

  lemma {:induction false} RunBalances(w: World, steps: seq<Step>, id: nat)
    requires Inv(w) && Run(IDS, w, steps)
    ensures One(Out(w.ids, id)) + HandOuts(w, steps, id) == One(Out(Last(w, steps).ids, id)) + Returns(w, steps, id)
    decreases |steps|
  {
    hide Inv, Enabled, TakesId, Next, Outstanding, HandsOut, GivesBack, Out, One;
    if |steps| > 0 {
      StepBalances(w, steps[0], id);
      NextKeepsInv(w, steps[0]);
      RunBalances(Next(w, steps[0]), steps[1..], id);
    }
  }

  /** Over every run, an id has been released as often as handed out, less one exactly while it is out. */
  lemma HandOutsMatchReleases(steps: seq<Step>, id: nat)
    requires Run(IDS, Empty, steps)
    ensures HandOuts(Empty, steps, id) == Returns(Empty, steps, id) + One(Out(Last(Empty, steps).ids, id))
  {
    hide Run, Last, Path, HandOuts, Returns, Inv;
    EmptyInv();
    RunBalances(Empty, steps, id);
  }

  // ---- The bound is exact -----------------------------------------------------------------------------

  lemma {:induction false} RunExtends(limit: nat, w: World, steps: seq<Step>, s: Step)
    requires Run(limit, w, steps) && Enabled(Last(w, steps), s) && Within(limit, Last(w, steps), s)
    ensures Run(limit, w, steps + [s]) && Last(w, steps + [s]) == Next(Last(w, steps), s)
    decreases |steps|
  {
    hide Enabled, Next, Within;
    if |steps| == 0 {
      assert (steps + [s])[1..] == [];
      assert Last(Next(w, s), []) == Next(w, s);
    } else {
      RunExtends(limit, Next(w, steps[0]), steps[1..], s);
      assert (steps + [s])[1..] == steps[1..] + [s];
    }
  }

  /** After n items: n ids minted, none free, and item i carries the i-th of them. */
  ghost predicate Stocked(w: World, n: nat) {
    && w.ids == IdManager({}, n) && (forall h | h in w.used :: h < n)
    && forall i: nat | i < n :: i in w.live && w.live[i].id == Some(i % IDS)
  }

  lemma StockOne(limit: nat, w: World, n: nat)
    requires Stocked(w, n) && n < limit
    ensures var s := BuildItem(n, n % IDS); Enabled(w, s) && Within(limit, w, s) && Stocked(Next(w, s), n + 1)
  {}

  /** Building n items, one after the other. */
  lemma {:induction false} StockUp(limit: nat, n: nat) returns (steps: seq<Step>)
    requires n <= limit
    ensures Run(limit, Empty, steps) && Stocked(Last(Empty, steps), n)
  {
    hide Run, Last, Path, Enabled, Within, Next;
    steps := [];
    if n == 0 {
      EmptyRun(limit, Empty);
    } else {
      steps := StockUp(limit, n - 1);
      StockOne(limit, Last(Empty, steps), n - 1);
      var s := BuildItem(n - 1, (n - 1) % IDS);
      RunExtends(limit, Empty, steps, s);
      steps := steps + [s];
    }
  }

  lemma EmptyRun(limit: nat, w: World)
    ensures Run(limit, w, []) && Path(w, []) && Last(w, []) == w
  {}

  /** With 65536 items on the map, one more gets the id of the first. */
  lemma OneTooMany(limit: nat) returns (steps: seq<Step>)
    requires limit > IDS
    ensures Run(limit, Empty, steps) && !Distinct(Last(Empty, steps))
    ensures var w := Last(Empty, steps); 0 in w.live && IDS in w.live && w.live[0].id == w.live[IDS].id == Some(0)
  {
    hide Run, Last, Path;
    steps := StockUp(limit, IDS + 1);
    var w := Last(Empty, steps);
    assert w.live[0].id == Some(0) && w.live[IDS].id == Some(IDS % IDS);
  }

  /** No run that keeps fewer than `limit` ids outstanding when it takes one ever repeats a live id. */
  ghost predicate AlwaysDistinct(limit: nat) {
    forall steps | Run(limit, Empty, steps) :: Distinct(Last(Empty, steps))
  }

  /** Live ids are distinct in every run exactly when ids are only taken while fewer than 65536 are outstanding. */
  lemma DistinctIffFewEnough(limit: nat)
    ensures AlwaysDistinct(limit) <==> limit <= IDS
  {
    hide Run, Last, Path, Distinct;
    if limit <= IDS {
      forall steps | Run(limit, Empty, steps)
        ensures Distinct(Last(Empty, steps))
      {
        EmptyInv();
        RunKeepsInv(limit, Empty, steps);
      }
    } else {
      var steps := OneTooMany(limit);
    }
  }

  // ---- The allocator object -----------------------------------------------------------------------

  class Allocator {
    var freeIds: set<nat>
    var maxId: nat
    ghost var minted: nat

    /** The counter is the number of ids produced, modulo 2^16. */
    ghost predicate Valid()
      reads this
    {
      maxId == minted % IDS
    }

    ghost function State(): IdManager
      reads this
    {
      IdManager(freeIds, minted)
    }

    constructor ()
      ensures Valid() && State() == Empty.ids
    {
      freeIds, maxId, minted := {}, 0, 0;
    }

    method GetFreeId() returns (id: nat)
      requires Valid()
      modifies this
      ensures Valid() && Offers(old(State()), id) && State() == Given(old(State()), id)
    {
      if freeIds != {} {
        id :| id in freeIds;
        freeIds := freeIds - {id};
      } else {
        id := maxId;
        maxId := (maxId + 1) % IDS;
        minted := minted + 1;
      }
    }

    method ReleaseId(id: nat)
      requires Valid()
      modifies this
      ensures Valid() && State() == Released(old(State()), id)
    {
      freeIds := freeIds + {id};
    }
  }

  // ---- The entity system ---------------------------------------------------------------------------

  lemma {:induction false} PathExtends(w: World, steps: seq<Step>, s: Step)
    requires Path(w, steps) && Enabled(Last(w, steps), s)
    ensures Path(w, steps + [s]) && Last(w, steps + [s]) == Next(Last(w, steps), s)
    decreases |steps|
  {
    hide Enabled, Next;
    if |steps| == 0 {
      assert (steps + [s])[1..] == [];
      assert Last(Next(w, s), []) == Next(w, s);
    } else {
      PathExtends(Next(w, steps[0]), steps[1..], s);
      assert (steps + [s])[1..] == steps[1..] + [s];
    }
  }

  /** There are ids left for all create commands. */
  ghost predicate HasRoom(w: World) {
    Inv(w) && Outstanding(w.ids) + |w.creating| <= IDS
  }

  /** A create command takes at most one id. */
  lemma CreateRoom(w: World, id: nat)
    requires Inv(w) && |w.creating| > 0 && Outstanding(w.ids) < IDS && (w.creating[0] in w.live ==> Offers(w.ids, id))
    ensures Outstanding(Created(w, id).ids) <= Outstanding(w.ids) + 1
  {
    hide Distinct, Truthful, Orderly, Out;
    if w.creating[0] in w.live {
      GivenIsNew(w.ids, id);
    }
  }

  /** The maps, the command lists and the id manager of EntitySystem. New handles come from the entity manager. */
  class EntitySystem {
    const idManager: Allocator
    var live: map<Handle, Info>
    ghost var used: set<Handle>
    var createCommands: seq<Handle>
    var deleteCommands: seq<Command>
    var idToEntity: map<nat, Handle>
    var nameToEntity: map<string, Handle>
    var itemToEntity: map<nat, Handle>

    constructor ()
      ensures Valid() && fresh(idManager) && State() == Empty
    {
      idManager := new Allocator();
      live, used, createCommands, deleteCommands := map[], {}, [], [];
      idToEntity, nameToEntity, itemToEntity := map[], map[], map[];
    }

    ghost predicate Valid()
      reads idManager
    {
      idManager.Valid()
    }

    ghost function State(): World
      reads this, idManager
    {
      World(idManager.State(), live, used, createCommands, deleteCommands, idToEntity, nameToEntity, itemToEntity)
    }

    method RegisterEntity(h: Handle, id: nat, name: string)
      modifies this
      ensures State() == Registered(old(State()), h, id, name)
    {
      if name != "" && id != 0 {
        nameToEntity := nameToEntity[name := h];
        idToEntity := idToEntity[id := h];
      }
    }

    /** loadCharacter; `name` is None when the character is not stored. */
    method LoadCharacter(h: Handle, name: Option<string>) returns (id: Option<nat>)
      requires Valid() && h !in used
      modifies this, idManager
      ensures Valid() && id.Some? == name.Some?
      ensures var step := if name.Some? then Load(h, name.value, id.value) else LoadNothing(h);
        Enabled(old(State()), step) && State() == Next(old(State()), step)
    {
      used := used + {h};
      if name.None? {
        return None;
      }
      var free := idManager.GetFreeId();
      live := live[h := Info(Some(free), name.value, false, false)];
      RegisterEntity(h, free, name.value);
      id := Some(free);
    }

    method BuildItemEntity(h: Handle) returns (id: nat)
      requires Valid() && h !in used
      modifies this, idManager
      ensures Valid() && Enabled(old(State()), BuildItem(h, id))
      ensures State() == Next(old(State()), BuildItem(h, id))
    {
      id := idManager.GetFreeId();
      live, used := live[h := Info(Some(id), "", false, false)], used + {h};
      itemToEntity := itemToEntity[id := h];
    }

    /** create_npc and create_warpgate. */
    method RequestCreate(h: Handle, npc: bool)
      requires h !in used
      modifies this
      ensures State() == Next(old(State()), Request(h, npc))
    {
      live, used := live[h := Info(None, "", npc, false)], used + {h};
      createCommands := createCommands + [h];
    }

    method Destroy(h: Handle)
      modifies this
      ensures State() == Next(old(State()), Step.Destroy(h))
    {
      if h in live && live[h].onMap {
        live := live[h := live[h].(onMap := false)];
        deleteCommands := deleteCommands + [DestroyOne(h)];
      }
    }

    method BulkDestroy(hs: seq<Handle>)
      modifies this
      ensures State() == Next(old(State()), Bulk(hs))
    {
      deleteCommands := deleteCommands + [DestroyMany(hs)];
    }

    method ExecuteCreate(h: Handle) returns (id: nat)
      requires Valid()
      modifies this, idManager
      ensures Valid() && (h in old(live) ==> Offers(old(State()).ids, id))
      ensures State() == if h in old(live)
        then old(State()).(ids := Given(old(State()).ids, id), live := old(live)[h := old(live)[h].(id := Some(id))])
        else old(State())
    {
      id := 0;
      if h in live {
        id := idManager.GetFreeId();
        live := live[h := live[h].(id := Some(id))];
      }
    }

    method ExecuteDelete(command: Command)
      requires Valid()
      modifies this, idManager
      ensures Valid()
      ensures State() == match command
        case DestroyOne(h) => DestroyedOne(old(State()), h)
        case DestroyMany(hs) => DestroyedMany(old(State()), hs)
      ensures createCommands == old(createCommands) && deleteCommands == old(deleteCommands)
    {
      match command
      case DestroyOne(h) =>
        if h in live {
          var info := live[h];
          if !info.keepsId && info.id.Some? {
            nameToEntity := nameToEntity - {info.name};
            idToEntity := idToEntity - {info.id.value};
            idManager.ReleaseId(info.id.value);
          }
          live := live - {h};
        }
      case DestroyMany(hs) => DestroyEach(hs);
    }

    method DestroyEach(hs: seq<Handle>)
      modifies this
      ensures State() == DestroyedMany(old(State()), hs)
    {
      ghost var before := State();
      for i := 0 to |hs|
        invariant State() == DestroyedMany(before, hs[..i])
      {
        live := live - {hs[i]};
        assert live == DestroyedMany(before, hs[..i + 1]).live;
      }
      assert hs[..|hs|] == hs;
    }

    /** The first part of update: all create commands, each taking an id on offer. */
    method RunCreateCommands() returns (ghost steps: seq<Step>)
      requires Valid()
      modifies this, idManager
      ensures Valid() && createCommands == [] && |steps| == |old(createCommands)|
      ensures forall i | 0 <= i < |steps| :: steps[i].RunCreate?
      ensures Path(old(State()), steps) && State() == Last(old(State()), steps)
      ensures old(HasRoom(State())) ==> Run(IDS, old(State()), steps) && Inv(State())
    {
      hide Inv, Run, Last, Path, Outstanding, Given, Offers;
      ghost var start := State();
      steps := [];
      EmptyRun(IDS, start);
      for i := 0 to |createCommands|
        invariant Valid() && createCommands == start.creating && |steps| == i
        invariant forall k | 0 <= k < i :: steps[k].RunCreate?
        invariant Path(start, steps) && State().(creating := createCommands[i..]) == Last(start, steps)
        invariant HasRoom(start) ==> Run(IDS, start, steps) && HasRoom(Last(start, steps))
      {
        ghost var now := State().(creating := createCommands[i..]);
        var id := ExecuteCreate(createCommands[i]);
        assert createCommands[i..][1..] == createCommands[i + 1..];
        PathExtends(start, steps, RunCreate(id));
        if HasRoom(start) {
          CreateRoom(now, id);
          NextKeepsInv(now, RunCreate(id));
          RunExtends(IDS, start, steps, RunCreate(id));
        }
        steps := steps + [RunCreate(id)];
      }
      createCommands := [];
    }

    /** The last part of update: all delete commands. */
    method RunDeleteCommands() returns (ghost steps: seq<Step>)
      requires Valid()
      modifies this, idManager
      ensures Valid() && deleteCommands == [] && |steps| == |old(deleteCommands)|
      ensures forall i | 0 <= i < |steps| :: steps[i].RunDelete?
      ensures Path(old(State()), steps) && State() == Last(old(State()), steps)
      ensures old(Inv(State())) ==> Run(IDS, old(State()), steps) && Inv(State())
    {
      hide Inv, Run, Last, Path, Outstanding, Released, DestroyedOne, DestroyedMany;
      ghost var start := State();
      steps := [];
      EmptyRun(IDS, start);
      for i := 0 to |deleteCommands|
        invariant Valid() && deleteCommands == start.deleting && |steps| == i
        invariant forall k | 0 <= k < i :: steps[k].RunDelete?
        invariant Path(start, steps) && State().(deleting := deleteCommands[i..]) == Last(start, steps)
        invariant Inv(start) ==> Run(IDS, start, steps) && Inv(Last(start, steps))
      {
        ghost var now := State().(deleting := deleteCommands[i..]);
        ExecuteDelete(deleteCommands[i]);
        assert deleteCommands[i..][1..] == deleteCommands[i + 1..];
        DeleteIgnoresCommands(now, deleteCommands);
        PathExtends(start, steps, RunDelete);
        if Inv(start) {
          NextKeepsInv(now, RunDelete);
          RunExtends(IDS, start, steps, RunDelete);
        }
        steps := steps + [RunDelete];
      }
      deleteCommands := [];
    }

    /** Executing a command does not look at the list it is on. */
    lemma DeleteIgnoresCommands(w: World, commands: seq<Command>)
      requires |w.deleting| > 0
      ensures var all := w.(deleting := commands);
        Deleted(w) == (match w.deleting[0]
          case DestroyOne(h) => DestroyedOne(all, h)
          case DestroyMany(hs) => DestroyedMany(all, hs)).(deleting := w.deleting[1..])
    {}
  }
}
