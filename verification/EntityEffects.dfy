/**
  What becomes of one entity: how it gets its id, how it is found, and what is left of it when
  it is destroyed.
 */
module EntityEffects {
  import opened Options
  import opened EntityIds

  /** A loaded character is alive with its id and, if that is not 0, found by id and by name. */
  lemma LoadIsFound(w: World, h: Handle, name: string, id: nat)
    requires Enabled(w, Load(h, name, id)) && name != "" && id != 0
    ensures var u := Next(w, Load(h, name, id));
      && u.live == w.live[h := Info(Some(id), name, false, false)]
      && u.byId == w.byId[id := h] && u.byName == w.byName[name := h] && u.byItem == w.byItem
      && u.creating == w.creating && u.deleting == w.deleting
  {}

  /** An item is alive with its id and found among the items only. */
  lemma ItemIsFound(w: World, h: Handle, id: nat)
    requires Enabled(w, BuildItem(h, id))
    ensures var u := Next(w, BuildItem(h, id));
      && u.live == w.live[h := Info(Some(id), "", false, false)] && u.byItem == w.byItem[id := h]
      && u.byId == w.byId && u.byName == w.byName && u.creating == w.creating && u.deleting == w.deleting
  {}

  /** An entity asked for is there at once, without an id; its create command gives it the one on offer. */
  lemma RequestedIsCreated(w: World, h: Handle, npc: bool, id: nat)
    requires Enabled(w, Request(h, npc)) && w.creating == [] && Offers(w.ids, id)
    ensures var u := Next(w, Request(h, npc));
      && u.live == w.live[h := Info(None, "", npc, false)] && u.ids == w.ids
      && Enabled(u, RunCreate(id))
      && var v := Next(u, RunCreate(id));
         && v.live == w.live[h := Info(Some(id), "", npc, false)] && v.ids == Given(w.ids, id) && v.creating == []
  {
    assert [h][1..] == [];
  }

  /** Asking twice is asking once, and only what is on the map can be asked for. */
  lemma DestroyOnce(w: World, h: Handle)
    ensures var u := Next(w, Destroy(h));
      && Next(u, Destroy(h)) == u
      && (u.deleting == if h in w.live && w.live[h].onMap then w.deleting + [DestroyOne(h)] else w.deleting)
      && u.live.Keys == w.live.Keys && u.ids == w.ids
  {}

  /** The command takes the entity off the world; unless it is an Npc, its names go and its id is free again. */
  lemma DestroyedIsGone(w: World, h: Handle)
    requires Inv(w) && h in w.live && w.live[h].onMap && w.deleting == [] && w.live[h].id.Some?
    ensures var info := w.live[h];
      var u := Next(w, Destroy(h));
      && Enabled(u, RunDelete)
      && var v := Next(u, RunDelete);
         && v.live == w.live - {h} && v.deleting == []
         && (info.keepsId ==> v.ids == w.ids && Out(v.ids, info.id.value))
         && (!info.keepsId ==>
               && v.ids == Released(w.ids, info.id.value) && info.id.value in v.ids.free
               && info.id.value !in v.byId && info.name !in v.byName)
  {
    hide Sane, Truthful, Orderly, Out;
    var u := Next(w, Destroy(h));
    assert u.deleting == [DestroyOne(h)] && u.deleting[1..] == [];
    var v := Next(u, RunDelete);
    assert v.live == w.live - {h};
    assert Out(w.ids, w.live[h].id.value);
  }

  /** Bulk destruction takes all of them away and gives no id back. */
  lemma BulkIsGone(w: World, hs: seq<Handle>)
    requires w.deleting == []
    ensures var u := Next(w, Bulk(hs));
      && Enabled(u, RunDelete)
      && var v := Next(u, RunDelete);
         v.live == w.live - (set h | h in hs) && v.ids == w.ids && v.byId == w.byId && v.byName == w.byName
  {
    assert [DestroyMany(hs)][1..] == [];
  }
}
