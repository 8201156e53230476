/** The side copy of the config entries, and restoring it after everything was deleted. */
module ConfigBackup {
  import opened Wrappers
  import opened Sequences
  import opened StorageCopy
  import opened HomeAssistantModel
  import opened DomainMigration

  /** One serialized entry; the record list is kept here as a table by entry id. */
  datatype Record = Record(domain: string, content: Content)

  type Records = map<EntryId, Record>

  function Serialize(entry: ConfigEntry): Record {
    Record(entry.domain, entry.content)
  }

  /** The records of the domain's entries. */
  function Snapshot(entries: Entries, domain: string): Records {
    map id | id in entries && entries[id].domain == domain :: Serialize(entries[id])
  }

  function Saved(backup: Option<Records>, entries: Entries, domain: string): Option<Records> {
    if Snapshot(entries, domain) == map[] then backup else Some(Snapshot(entries, domain))
  }

  /** What loading returns: a store never written, or written empty, has no records. */
  function LoadBackup(backup: Option<Records>): Records {
    if backup.Some? then backup.value else map[]
  }

  class ConfigBackupStore {
    var saved: Option<Records>

    constructor ()
      ensures saved == None
    {
      saved := None;
    }

    method AsyncSaveConfigBackup(hass: HomeAssistant, domain: string)
      modifies this
      ensures saved == Saved(old(saved), hass.entries, domain)
    {
      var records: Records := map[];
      var left := hass.entries.Keys;
      while left != {}
        invariant left <= hass.entries.Keys
        invariant forall id :: id in records <==> id in hass.entries && id !in left && hass.entries[id].domain == domain
        invariant forall id | id in records :: records[id] == Serialize(hass.entries[id])
      {
        var id :| id in left;
        if hass.entries[id].domain == domain {
          records := records[id := Serialize(hass.entries[id])];
        }
        left := left - {id};
      }
      assert records == Snapshot(hass.entries, domain);
      if records == map[] {
        return;
      }
      saved := Some(records);
    }

    /** One new entry per record, under the current domain; the ids it may use are passed in. */
    method AsyncRestoreConfigBackup(hass: HomeAssistant, domain: string, ids: seq<EntryId>, newIds: seq<EntryId>)
      requires |newIds| == |ids| && FreshIds(newIds, hass.entries) && Distinct(ids)
      requires forall id :: id in ids <==> id in LoadBackup(saved)
      modifies hass, hass.storage
      ensures EntriesRestored(hass.entries, old(hass.entries), LoadBackup(saved), ids, newIds, domain)
      ensures CarriedOverInTurn(RecordRebrands(LoadBackup(saved), domain, ids, newIds), hass.storage.files, old(hass.storage.files))
      ensures hass.registry == old(hass.registry)
    {
      var records := LoadBackup(saved);
      ghost var rebrands := RecordRebrands(records, domain, ids, newIds);
      for i := 0 to |ids|
        invariant EntriesRestored(hass.entries, old(hass.entries), records, ids[..i], newIds[..i], domain)
        invariant CarriedOverInTurn(rebrands[..i], hass.storage.files, old(hass.storage.files))
        invariant hass.registry == old(hass.registry)
      {
        RestoreNext(hass, records, ids, newIds, i, domain, old(hass.entries), old(hass.storage.files));
      }
      WholePrefix(ids);
      WholePrefix(newIds);
      WholePrefix(rebrands);
    }
  }

  /** Record `i`: recreate its entry, then carry its store files over. */
  method RestoreNext(hass: HomeAssistant, records: Records, ids: seq<EntryId>, newIds: seq<EntryId>, i: nat, domain: string,
                     ghost entries: Entries, ghost files: Files)
    requires |newIds| == |ids| && i < |ids| && FreshIds(newIds, entries) && forall id | id in ids :: id in records
    requires EntriesRestored(hass.entries, entries, records, ids[..i], newIds[..i], domain)
    requires CarriedOverInTurn(RecordRebrands(records, domain, ids, newIds)[..i], hass.storage.files, files)
    modifies hass, hass.storage
    ensures EntriesRestored(hass.entries, entries, records, ids[..i + 1], newIds[..i + 1], domain)
    ensures CarriedOverInTurn(RecordRebrands(records, domain, ids, newIds)[..i + 1], hass.storage.files, files)
    ensures hass.registry == old(hass.registry)
  {
    ghost var rebrands := RecordRebrands(records, domain, ids, newIds);
    RestoreOneMore(hass.entries, entries, records, ids, newIds, i, domain);
    RestoreEntry(hass, records[ids[i]], ids[i], newIds[i], domain);
    AnotherCarriedOver(rebrands, i, hass.storage.files, old(hass.storage.files), files);
  }

  /** The storage renamings of all records. */
  function RecordRebrands(records: Records, domain: string, ids: seq<EntryId>, newIds: seq<EntryId>): (rs: seq<Rebrand>)
    requires |ids| == |newIds| && forall id | id in ids :: id in records
    ensures |rs| == |ids|
  {
    seq(|ids|, i requires 0 <= i < |ids| =>
      assert ids[i] in ids; Rebrand(records[ids[i]].domain, domain, ids[i].text, newIds[i].text))
  }

  /** Recreate one entry, then carry its store files over. */
  method RestoreEntry(hass: HomeAssistant, record: Record, id: EntryId, newId: EntryId, domain: string)
    requires newId !in hass.entries
    modifies hass, hass.storage
    ensures hass.entries == old(hass.entries)[newId := ConfigEntry(domain, record.content, false, true)]
    ensures hass.registry == old(hass.registry)
    ensures CarriedOver(Rebrand(record.domain, domain, id.text, newId.text), hass.storage.files, old(hass.storage.files))
  {
    hass.AsyncAdd(newId, ConfigEntry(domain, record.content, false, false));
    CopyStorageFiles(hass.storage, Rebrand(record.domain, domain, id.text, newId.text));
  }

  /** Beside the entries that were there, exactly one new enabled entry per record, with the record's content. */
  ghost predicate EntriesRestored(after: Entries, before: Entries, records: Records,
                                  ids: seq<EntryId>, newIds: seq<EntryId>, domain: string)
    requires |ids| == |newIds| && forall id | id in ids :: id in records
  {
    && (forall id :: id in after <==> id in before || id in newIds)
    && (forall id | id in before && id !in newIds :: after[id] == before[id])
    && (forall i | 0 <= i < |ids| :: after[newIds[i]] == ConfigEntry(domain, records[ids[i]].content, false, true))
  }

  lemma RestoreOneMore(after: Entries, before: Entries, records: Records,
                       ids: seq<EntryId>, newIds: seq<EntryId>, i: nat, domain: string)
    requires |newIds| == |ids| && i < |ids| && FreshIds(newIds, before) && forall id | id in ids :: id in records
    requires EntriesRestored(after, before, records, ids[..i], newIds[..i], domain)
    ensures ids[i] in records && newIds[i] !in after
    ensures EntriesRestored(after[newIds[i] := ConfigEntry(domain, records[ids[i]].content, false, true)], before, records,
                            ids[..i + 1], newIds[..i + 1], domain)
  {
    PrefixGrows(newIds, i);
    PrefixGrows(ids, i);
    NextIsNew(newIds, i);
  }

  // ------------------------------------------------------------- over whole runs

  datatype World = World(entries: Entries, backup: Option<Records>)

  datatype Event =
    | Add(id: EntryId, entry: ConfigEntry)
    | Update(id: EntryId, content: Content)
    | Delete(id: EntryId)
    | Save

  function Next(w: World, e: Event, domain: string): World {
    match e
    case Add(id, entry) => w.(entries := w.entries[id := entry])
    case Update(id, content) =>
      if id in w.entries then w.(entries := w.entries[id := w.entries[id].(content := content)]) else w
    case Delete(id) => w.(entries := w.entries - {id})
    case Save => w.(backup := Saved(w.backup, w.entries, domain))
  }

  function Run(w: World, events: seq<Event>, domain: string): World
    decreases events
  {
    var n := |events|;
    if n == 0 then w else Next(Run(w, events[..n - 1], domain), events[n - 1], domain)
  }

  /** Step `k` of the run is a save made while entries existed. */
  predicate SavesEntries(w: World, events: seq<Event>, domain: string, k: nat) {
    k < |events| && events[k] == Save && Snapshot(Run(w, events[..k], domain).entries, domain) != map[]
  }

  /** The backup always holds the snapshot of the last save made while entries existed. */
  lemma {:induction false} BackupIsLastSnapshot(w: World, events: seq<Event>, domain: string, k: nat)
    requires SavesEntries(w, events, domain, k)
    requires forall j: nat | k < j < |events| :: !SavesEntries(w, events, domain, j)
    ensures Run(w, events, domain).backup == Some(Snapshot(Run(w, events[..k], domain).entries, domain))
  {
    var n := |events|;
    var before := events[..n - 1];
    if k < n - 1 {
      assert before[..k] == events[..k];
      forall j: nat | k < j < |before| ensures !SavesEntries(w, before, domain, j) {
        assert before[..j] == events[..j];
        assert !SavesEntries(w, events, domain, j);
      }
      BackupIsLastSnapshot(w, before, domain, k);
      assert !SavesEntries(w, events, domain, n - 1);
    }
  }

  /** A run without such a save, whatever it deletes, leaves the backup alone. */
  lemma {:induction false} BackupIsNeverCleared(w: World, events: seq<Event>, domain: string)
    requires forall j: nat | j < |events| :: !SavesEntries(w, events, domain, j)
    ensures Run(w, events, domain).backup == w.backup
  {
    var n := |events|;
    if n > 0 {
      var before := events[..n - 1];
      forall j: nat | j < |before| ensures !SavesEntries(w, before, domain, j) {
        assert before[..j] == events[..j];
        assert !SavesEntries(w, events, domain, j);
      }
      BackupIsNeverCleared(w, before, domain);
      assert !SavesEntries(w, events, domain, n - 1);
    }
  }

  /**
   * The entries of `newDomain` are exactly the snapshot's, each under its new id,
   * enabled and otherwise as it was saved; whatever else the system holds is as before.
   */
  ghost predicate Recovered(after: Entries, before: Entries, saved: Entries, ids: seq<EntryId>, newIds: seq<EntryId>,
                            oldDomain: string, newDomain: string)
    requires |ids| == |newIds|
  {
    && (forall id :: id in ids <==> id in saved && saved[id].domain == oldDomain)
    && (forall id :: id in newIds <==> id in after && after[id].domain == newDomain)
    && (forall i | 0 <= i < |ids| :: newIds[i] in after
          && after[newIds[i]] == saved[ids[i]].(domain := newDomain, disabled := false, loaded := true))
    && (forall id | id in before :: id in after && after[id] == before[id])
    && (forall id | id in after :: id in before || id in newIds)
  }

  lemma RestoreOfSnapshot(after: Entries, before: Entries, saved: Entries, ids: seq<EntryId>, newIds: seq<EntryId>,
                          oldDomain: string, newDomain: string)
    requires |ids| == |newIds| && FreshIds(newIds, before)
    requires forall id | id in before :: before[id].domain != newDomain
    requires forall id :: id in ids <==> id in Snapshot(saved, oldDomain)
    requires EntriesRestored(after, before, Snapshot(saved, oldDomain), ids, newIds, newDomain)
    ensures Recovered(after, before, saved, ids, newIds, oldDomain, newDomain)
  {
    forall i | 0 <= i < |ids|
      ensures ids[i] in ids && ids[i] in Snapshot(saved, oldDomain) && ids[i] in saved && newIds[i] in after
      ensures after[newIds[i]] == saved[ids[i]].(domain := newDomain, disabled := false, loaded := true)
    {
      assert ids[i] in ids && newIds[i] in newIds;
      assert ids[i] in Snapshot(saved, oldDomain);
    }
  }

  /**
   * Recovery end to end: after any run under the old domain, restoring under the
   * new one, in a system that has no entry of it yet but may have any others,
   * recreates exactly the entries of the last snapshot with the content they had
   * at that save.
   */
  lemma RecoveryIsLastSnapshot(w: World, events: seq<Event>, oldDomain: string, newDomain: string, k: nat,
                               after: Entries, before: Entries, ids: seq<EntryId>, newIds: seq<EntryId>)
    requires SavesEntries(w, events, oldDomain, k)
    requires forall j: nat | k < j < |events| :: !SavesEntries(w, events, oldDomain, j)
    requires |ids| == |newIds| && FreshIds(newIds, before)
    requires forall id | id in before :: before[id].domain != newDomain
    requires forall id :: id in ids <==> id in LoadBackup(Run(w, events, oldDomain).backup)
    requires EntriesRestored(after, before, LoadBackup(Run(w, events, oldDomain).backup), ids, newIds, newDomain)
    ensures Recovered(after, before, Run(w, events[..k], oldDomain).entries, ids, newIds, oldDomain, newDomain)
  {
    BackupIsLastSnapshot(w, events, oldDomain, k);
    RestoreOfSnapshot(after, before, Run(w, events[..k], oldDomain).entries, ids, newIds, oldDomain, newDomain);
  }
}
