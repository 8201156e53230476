/** The parts of the host system the migration and the recovery drive: entries, registry, states, storage. */
module HomeAssistantModel {
  import opened Wrappers
  import opened StorageCopy

  /** What a config entry carries from one domain to the other. */
  datatype Content = Content(
    version: nat, minorVersion: nat, title: string,
    data: map<string, string>, options: map<string, string>,
    source: string, uniqueId: Option<string>)

  /** Identifiers; only storage file names look inside an entry id. */
  datatype EntryId = EntryId(text: string)
  datatype EntityId = EntityId(text: string)

  datatype ConfigEntry = ConfigEntry(domain: string, content: Content, disabled: bool, loaded: bool)

  /** A registered entity; `kind` is its entity domain, `custom` the user's own changes to it. */
  datatype RegistryEntry = RegistryEntry(
    kind: string, platform: string, uniqueId: string, configEntryId: Option<EntryId>, custom: string)

  type Entries = map<EntryId, ConfigEntry>
  type Registry = map<EntityId, RegistryEntry>

  /** The entities linked to a config entry. */
  function LinkedTo(registry: Registry, entryId: EntryId): set<EntityId> {
    set e | e in registry && registry[e].configEntryId == Some(entryId)
  }

  /** The key under which the system finds an entity again. */
  predicate SameKey(a: RegistryEntry, b: RegistryEntry) {
    a.kind == b.kind && a.platform == b.platform && a.uniqueId == b.uniqueId
  }

  ghost predicate KeysUnique(registry: Registry) {
    forall e, f | e in registry && f in registry && e != f :: !SameKey(registry[e], registry[f])
  }

  class HomeAssistant {
    var entries: Entries
    var registry: Registry
    var states: set<EntityId>
    const storage: StorageDirectory

    constructor (entries: Entries, registry: Registry, states: set<EntityId>, storage: StorageDirectory)
      ensures this.entries == entries && this.registry == registry && this.states == states && this.storage == storage
    {
      this.entries, this.registry, this.states, this.storage := entries, registry, states, storage;
    }

    /** Unloading leaves a placeholder state behind for every registered entity. */
    method AsyncUnload(id: EntryId)
      requires id in entries
      modifies this`entries
      ensures entries == old(entries)[id := old(entries)[id].(loaded := false)]
    {
      entries := entries[id := entries[id].(loaded := false)];
    }

    /** A disabled entry is added without being set up; an enabled one loads. */
    method AsyncAdd(id: EntryId, entry: ConfigEntry)
      requires id !in entries
      modifies this`entries
      ensures entries == old(entries)[id := entry.(loaded := !entry.disabled)]
    {
      entries := entries[id := entry.(loaded := !entry.disabled)];
    }

    method RemoveState(entityId: EntityId)
      modifies this`states
      ensures states == old(states) - {entityId}
    {
      states := states - {entityId};
    }

    /** Refuses an entity that still has a live state, and an unknown destination. */
    method UpdateEntityPlatform(entityId: EntityId, platform: string, newEntryId: EntryId)
      requires entityId in registry && entityId !in states && newEntryId in entries
      modifies this`registry
      ensures registry == old(registry)[entityId := old(registry)[entityId].(platform := platform, configEntryId := Some(newEntryId))]
    {
      registry := registry[entityId := registry[entityId].(platform := platform, configEntryId := Some(newEntryId))];
    }

    /** Removing an entry deletes the entities still linked to it. */
    method AsyncRemove(id: EntryId)
      requires id in entries
      modifies this`entries, this`registry, this`states
      ensures entries == old(entries) - {id}
      ensures registry == old(registry) - LinkedTo(old(registry), id)
      ensures states == old(states) - LinkedTo(old(registry), id)
    {
      states := states - LinkedTo(registry, id);
      registry := registry - LinkedTo(registry, id);
      entries := entries - {id};
    }

    /** Clearing the disabled flag loads the entry, and its entities get states again. */
    method EnableEntry(id: EntryId)
      requires id in entries
      modifies this`entries, this`states
      ensures entries == old(entries)[id := old(entries)[id].(disabled := false, loaded := true)]
      ensures states == old(states) + LinkedTo(registry, id)
    {
      entries := entries[id := entries[id].(disabled := false, loaded := true)];
      states := states + LinkedTo(registry, id);
    }
  }
}
