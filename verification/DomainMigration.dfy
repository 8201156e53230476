/** Moving every config entry and its registered entities from the old domain to the new one. */
module DomainMigration {
  import opened Wrappers
  import opened Sequences
  import opened StorageCopy
  import opened HomeAssistantModel

  /** Which new entry replaces which old one. */
  type Pairing = map<EntryId, EntryId>

  /** The registry after the move: linked entities change platform and entry, and nothing else. */
  function Rehomed(registry: Registry, pairs: Pairing, newDomain: string): Registry {
    map e | e in registry ::
      match registry[e].configEntryId
      case Some(id) =>
        if id in pairs then registry[e].(platform := newDomain, configEntryId := Some(pairs[id])) else registry[e]
      case None => registry[e]
  }

  /** The entries after the move: every paired one replaced by an enabled mirror on the new domain. */
  ghost predicate EntriesMoved(after: Entries, before: Entries, pairs: Pairing, newDomain: string) {
    && (forall id :: id in after <==> (id in before && id !in pairs) || id in pairs.Values)
    && (forall id | id in before && id !in pairs :: id in after && after[id] == before[id])
    && (forall id | id in pairs :: id in before && pairs[id] in after
          && after[pairs[id]] == ConfigEntry(newDomain, before[id].content, false, true))
  }

  /** New ids are unused and pairwise different. */
  ghost predicate FreshIds(ids: seq<EntryId>, entries: Entries) {
    Distinct(ids) && forall id | id in ids :: id !in entries
  }

  /** The entities of one entry are re-pointed one by one, each freed of its live state first. */
  method RepointEntities(hass: HomeAssistant, oldId: EntryId, newId: EntryId, newDomain: string)
    requires newId in hass.entries && oldId != newId
    modifies hass`registry, hass`states
    ensures hass.registry == Rehomed(old(hass.registry), map[oldId := newId], newDomain)
    ensures hass.states == old(hass.states) - LinkedTo(old(hass.registry), oldId)
  {
    var linked := LinkedTo(hass.registry, oldId);
    var left := linked;
    ghost var before, states := hass.registry, hass.states;
    while left != {}
      invariant left <= linked
      invariant hass.registry.Keys == before.Keys
      invariant forall e | e in before :: hass.registry[e] ==
                  if e in linked && e !in left
                  then before[e].(platform := newDomain, configEntryId := Some(newId)) else before[e]
      invariant hass.states == states - (linked - left)
    {
      var entity :| entity in left;
      if entity in hass.states {
        hass.RemoveState(entity);
      }
      hass.UpdateEntityPlatform(entity, newDomain, newId);
      left := left - {entity};
    }
    assert hass.registry == Rehomed(before, map[oldId := newId], newDomain);
  }

  /** Once re-pointed, nothing is linked to the old entry any more, so removing it deletes no entity. */
  lemma NothingLeftLinked(registry: Registry, oldId: EntryId, newId: EntryId, newDomain: string)
    requires oldId != newId
    ensures LinkedTo(Rehomed(registry, map[oldId := newId], newDomain), oldId) == {}
    ensures Rehomed(registry, map[oldId := newId], newDomain) - {} == Rehomed(registry, map[oldId := newId], newDomain)
  {
    var after := Rehomed(registry, map[oldId := newId], newDomain);
    assert forall e | e in registry :: after[e].configEntryId != Some(oldId);
  }

  lemma MirrorReplacesOld(before: Entries, unloaded: Entries, oldId: EntryId, newId: EntryId, newDomain: string)
    requires oldId in before && newId !in before
    requires unloaded == before || unloaded == before[oldId := before[oldId].(loaded := false)]
    ensures var mirror := ConfigEntry(newDomain, before[oldId].content, true, false);
            EntriesMoved((unloaded[newId := mirror] - {oldId})[newId := mirror.(disabled := false, loaded := true)],
                         before, map[oldId := newId], newDomain)
  {
    var pair := map[oldId := newId];
    assert pair[oldId] == newId && newId in pair.Values;
    assert pair.Values == {newId};
  }

  /** One old entry: unload, mirror, re-point, remove, copy the files, enable. */
  method MigrateEntry(hass: HomeAssistant, oldId: EntryId, newId: EntryId, oldDomain: string, newDomain: string)
    requires oldId in hass.entries && newId !in hass.entries
    modifies hass, hass.storage
    ensures hass.registry == Rehomed(old(hass.registry), map[oldId := newId], newDomain)
    ensures EntriesMoved(hass.entries, old(hass.entries), map[oldId := newId], newDomain)
    ensures CarriedOver(Rebrand(oldDomain, newDomain, oldId.text, newId.text), hass.storage.files, old(hass.storage.files))
  {
    if hass.entries[oldId].loaded {
      hass.AsyncUnload(oldId);
    }
    MirrorReplacesOld(old(hass.entries), hass.entries, oldId, newId, newDomain);
    hass.AsyncAdd(newId, ConfigEntry(newDomain, hass.entries[oldId].content, true, false));
    RepointEntities(hass, oldId, newId, newDomain);
    NothingLeftLinked(old(hass.registry), oldId, newId, newDomain);
    hass.AsyncRemove(oldId);
    CopyStorageFiles(hass.storage, Rebrand(oldDomain, newDomain, oldId.text, newId.text));
    hass.EnableEntry(newId);
  }

  method CopyStorageFiles(storage: StorageDirectory, r: Rebrand)
    modifies storage
    ensures CarriedOver(r, storage.files, old(storage.files))
  {
    var listing := storage.Listing();
    CopyCarriesOver(r, storage.files, listing);
    var written := storage.MigrateStorageFiles(r, listing);
  }

  method MigrateLegacyDomainEntries(hass: HomeAssistant, oldDomain: string, newDomain: string,
                                    oldIds: seq<EntryId>, newIds: seq<EntryId>)
    returns (migrated: seq<(EntryId, EntryId)>)
    requires |newIds| == |oldIds| && FreshIds(newIds, hass.entries) && Distinct(oldIds)
    requires forall id :: id in oldIds <==> id in hass.entries && hass.entries[id].domain == oldDomain
    modifies hass, hass.storage
    ensures |migrated| == |oldIds| && forall k | 0 <= k < |oldIds| :: migrated[k] == (oldIds[k], newIds[k])
    ensures hass.registry == Rehomed(old(hass.registry), PairUp(oldIds, newIds), newDomain)
    ensures EntriesMoved(hass.entries, old(hass.entries), PairUp(oldIds, newIds), newDomain)
    ensures CarriedOverInTurn(Rebrands(oldDomain, newDomain, oldIds, newIds), hass.storage.files, old(hass.storage.files))
  {
    migrated := [];
    ghost var entries, registry, files := hass.entries, hass.registry, hass.storage.files;
    NothingMoved(hass.entries, hass.registry, newDomain);
    for i := 0 to |oldIds|
      invariant |migrated| == i && forall k | 0 <= k < i :: migrated[k] == (oldIds[k], newIds[k])
      invariant MigratedUpTo(hass.entries, hass.registry, hass.storage.files, entries, registry, files,
                             oldDomain, newDomain, oldIds, newIds, i)
    {
      MigrateNext(hass, oldDomain, newDomain, oldIds, newIds, i, entries, registry, files);
      migrated := migrated + [(oldIds[i], newIds[i])];
    }
    WholePrefix(oldIds);
    WholePrefix(newIds);
    WholePrefix(Rebrands(oldDomain, newDomain, oldIds, newIds));
  }

  /** The first `i` entries are migrated: `now` against `before`, as far as entries, registry and files go. */
  ghost predicate MigratedUpTo(nowEntries: Entries, nowRegistry: Registry, nowFiles: Files,
                               entries: Entries, registry: Registry, files: Files,
                               oldDomain: string, newDomain: string, oldIds: seq<EntryId>, newIds: seq<EntryId>, i: nat)
    requires |newIds| == |oldIds|
  {
    && i <= |oldIds|
    && nowRegistry == Rehomed(registry, PairUp(oldIds[..i], newIds[..i]), newDomain)
    && EntriesMoved(nowEntries, entries, PairUp(oldIds[..i], newIds[..i]), newDomain)
    && CarriedOverInTurn(Rebrands(oldDomain, newDomain, oldIds, newIds)[..i], nowFiles, files)
  }

  method MigrateNext(hass: HomeAssistant, oldDomain: string, newDomain: string, oldIds: seq<EntryId>, newIds: seq<EntryId>, i: nat,
                     ghost entries: Entries, ghost registry: Registry, ghost files: Files)
    requires |newIds| == |oldIds| && i < |oldIds| && FreshIds(newIds, entries) && Distinct(oldIds)
    requires forall id | id in oldIds :: id in entries
    requires MigratedUpTo(hass.entries, hass.registry, hass.storage.files, entries, registry, files,
                          oldDomain, newDomain, oldIds, newIds, i)
    modifies hass, hass.storage
    ensures MigratedUpTo(hass.entries, hass.registry, hass.storage.files, entries, registry, files,
                         oldDomain, newDomain, oldIds, newIds, i + 1)
  {
    ghost var pairs := PairUp(oldIds[..i], newIds[..i]);
    PairsUpTo(oldIds, newIds, i, entries);
    MigrateEntry(hass, oldIds[i], newIds[i], oldDomain, newDomain);
    RehomedTwice(registry, pairs, oldIds[i], newIds[i], newDomain);
    EntriesMovedTwice(hass.entries, old(hass.entries), entries, pairs, oldIds[i], newIds[i], newDomain);
    AnotherCarriedOver(Rebrands(oldDomain, newDomain, oldIds, newIds), i, hass.storage.files, old(hass.storage.files), files);
  }

  /** The storage renamings of all pairs. */
  function Rebrands(oldDomain: string, newDomain: string, oldIds: seq<EntryId>, newIds: seq<EntryId>): (rs: seq<Rebrand>)
    requires |oldIds| == |newIds|
    ensures |rs| == |oldIds|
  {
    seq(|oldIds|, i requires 0 <= i < |oldIds| => Rebrand(oldDomain, newDomain, oldIds[i].text, newIds[i].text))
  }

  lemma NothingMoved(entries: Entries, registry: Registry, newDomain: string)
    ensures EntriesMoved(entries, entries, map[], newDomain)
    ensures Rehomed(registry, map[], newDomain) == registry
  {
  }

  /** The next pair is new to the pairs made so far. */
  lemma PairsUpTo(oldIds: seq<EntryId>, newIds: seq<EntryId>, i: nat, entries: Entries)
    requires |newIds| == |oldIds| && i < |oldIds| && FreshIds(newIds, entries) && Distinct(oldIds)
    requires forall id | id in oldIds :: id in entries
    ensures var pairs := PairUp(oldIds[..i], newIds[..i]);
            && PairUp(oldIds[..i + 1], newIds[..i + 1]) == pairs[oldIds[i] := newIds[i]]
            && oldIds[i] in entries && oldIds[i] !in pairs && oldIds[i] !in pairs.Values
            && newIds[i] !in entries && newIds[i] !in pairs.Values
  {
    PairUpExact(oldIds[..i], newIds[..i]);
    PrefixGrows(oldIds, i);
    PrefixGrows(newIds, i);
    NextIsNew(oldIds, i);
    NextIsNew(newIds, i);
  }

  /** Moving one more entry after the others is moving all of them. */
  lemma RehomedTwice(registry: Registry, pairs: Pairing, oldId: EntryId, newId: EntryId, newDomain: string)
    requires oldId !in pairs && oldId !in pairs.Values
    ensures Rehomed(Rehomed(registry, pairs, newDomain), map[oldId := newId], newDomain)
            == Rehomed(registry, pairs[oldId := newId], newDomain)
  {
  }

  lemma EntriesMovedTwice(after: Entries, middle: Entries, before: Entries,
                          pairs: Pairing, oldId: EntryId, newId: EntryId, newDomain: string)
    requires EntriesMoved(middle, before, pairs, newDomain)
    requires EntriesMoved(after, middle, map[oldId := newId], newDomain)
    requires oldId in before && oldId !in pairs && oldId !in pairs.Values
    requires newId !in before && newId !in pairs.Values
    ensures EntriesMoved(after, before, pairs[oldId := newId], newDomain)
  {
    var all := pairs[oldId := newId];
    OneMorePair(pairs, oldId, newId);
    SinglePair(oldId, newId);
    forall id | id in all ensures id in before && all[id] in after && after[all[id]] == ConfigEntry(newDomain, before[id].content, false, true) {
      if id != oldId {
        assert pairs[id] in pairs.Values;
      }
    }
    MovedKeys(after, middle, before, pairs, oldId, newId, newDomain);
  }

  lemma SinglePair(oldId: EntryId, newId: EntryId)
    ensures map[oldId := newId].Values == {newId}
  {
    assert map[oldId := newId][oldId] == newId;
  }

  /** Which entries there are after moving one more. */
  lemma MovedKeys(after: Entries, middle: Entries, before: Entries,
                  pairs: Pairing, oldId: EntryId, newId: EntryId, newDomain: string)
    requires EntriesMoved(middle, before, pairs, newDomain)
    requires EntriesMoved(after, middle, map[oldId := newId], newDomain)
    requires oldId in before && oldId !in pairs && oldId !in pairs.Values
    requires newId !in before && newId !in pairs.Values
    ensures forall id :: id in after <==> (id in before && id !in pairs[oldId := newId]) || id in pairs[oldId := newId].Values
  {
    OneMorePair(pairs, oldId, newId);
    SinglePair(oldId, newId);
  }

  // -------------------------------------------------------------------- identity

  /** Entity ids, unique ids, kinds and the user's changes survive; unlinked entities are untouched. */
  lemma IdentityKept(registry: Registry, pairs: Pairing, newDomain: string, e: EntityId)
    requires e in registry
    ensures Rehomed(registry, pairs, newDomain).Keys == registry.Keys
    ensures var moved := Rehomed(registry, pairs, newDomain)[e];
            && moved.(platform := registry[e].platform, configEntryId := registry[e].configEntryId) == registry[e]
            && ((registry[e].configEntryId.None? || registry[e].configEntryId.value !in pairs) ==> moved == registry[e])
            && (forall id | registry[e].configEntryId == Some(id) && id in pairs ::
                  moved.platform == newDomain && moved.configEntryId == Some(pairs[id]))
  {
  }

  predicate Moves(registry: Registry, pairs: Pairing, e: EntityId) {
    e in registry && registry[e].configEntryId.Some? && registry[e].configEntryId.value in pairs
  }

  /** A moving entity's unique id is already taken on the new domain by one that stays. */
  predicate Clash(registry: Registry, pairs: Pairing, newDomain: string, e: EntityId, f: EntityId) {
    && Moves(registry, pairs, e) && f in registry && !Moves(registry, pairs, f)
    && registry[f].platform == newDomain
    && registry[e].kind == registry[f].kind && registry[e].uniqueId == registry[f].uniqueId
  }

  /**
   * Every moved entity is the only one found under its new key, so no second
   * entity is minted for it, exactly when no unique id was taken before.
   */
  lemma KeysStayUnique(registry: Registry, pairs: Pairing, oldDomain: string, newDomain: string)
    requires KeysUnique(registry)
    requires forall e | Moves(registry, pairs, e) :: registry[e].platform == oldDomain
    ensures KeysUnique(Rehomed(registry, pairs, newDomain)) <==> forall e, f :: !Clash(registry, pairs, newDomain, e, f)
  {
    var after := Rehomed(registry, pairs, newDomain);
    if e, f :| Clash(registry, pairs, newDomain, e, f) {
      assert e != f && SameKey(after[e], after[f]);
    } else {
      forall e, f | e in registry && f in registry && e != f ensures !SameKey(after[e], after[f]) {
        assert !SameKey(registry[e], registry[f]);
        assert !Clash(registry, pairs, newDomain, e, f) && !Clash(registry, pairs, newDomain, f, e);
      }
    }
  }

  /** Why the order of steps matters: removing the old entry before re-pointing deletes exactly its entities. */
  lemma RemovingFirstLosesEntities(registry: Registry, oldId: EntryId, newId: EntryId, newDomain: string)
    ensures Rehomed(registry - LinkedTo(registry, oldId), map[oldId := newId], newDomain).Keys
            == registry.Keys - LinkedTo(registry, oldId)
    ensures LinkedTo(registry, oldId) != {} ==>
            Rehomed(registry - LinkedTo(registry, oldId), map[oldId := newId], newDomain)
            != Rehomed(registry, map[oldId := newId], newDomain)
  {
    if LinkedTo(registry, oldId) != {} {
      var e :| e in LinkedTo(registry, oldId);
      assert e in Rehomed(registry, map[oldId := newId], newDomain);
    }
  }
}
