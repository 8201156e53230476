/**
 * What becomes of the backup-discharge totals when an entry gets a new id: the
 * copied store file keeps its records under the old entry's keys.
 */
module BackupAfterMove {
  import opened Wrappers
  import opened Text
  import opened StorageCopy
  import opened HomeAssistantModel
  import opened BackupStore

  /** The key of one battery's record, inside the document. */
  function RecordKey(entryId: EntryId, battery: nat): string {
    entryId.text + ":" + Decimal(battery)
  }

  /** The records a document body holds; how it is written down does not matter here. */
  type Decoder = string -> map<string, Raw>

  /** The store's records after loading the file `name`, if there is one. */
  ghost predicate LoadsFrom(data: map<string, Record>, files: Files, name: string, decode: Decoder) {
    if name in files && files[name].Dict? then LoadedFrom(data, decode(files[name].body)) else data == map[]
  }

  /** Some document of the directory has a record under `key`. */
  predicate Recorded(files: Files, decode: Decoder, key: string) {
    exists name | name in files :: files[name].Dict? && key in decode(files[name].body)
  }

  /** A copy changes the name and the inner key of a document, and never its records. */
  lemma CopyKeepsBodies(r: Rebrand, after: Files, before: Files, decode: Decoder, key: string)
    requires CarriedOver(r, after, before) && !Recorded(before, decode, key)
    ensures !Recorded(after, decode, key)
  {
    forall name | name in after && after[name].Dict? ensures key !in decode(after[name].body) {
      if name !in before {
        var source :| IsCopyOf(r, before, name, source, after[name]);
        assert before[source].Dict? && before[source].body == after[name].body;
      }
    }
  }

  lemma {:induction false} CopiesKeepBodies(rs: seq<Rebrand>, after: Files, before: Files, decode: Decoder, key: string)
    requires CarriedOverInTurn(rs, after, before) && !Recorded(before, decode, key)
    ensures !Recorded(after, decode, key)
    decreases rs
  {
    if rs != [] {
      var first, last := rs[..|rs| - 1], rs[|rs| - 1];
      var middle: Files :| CarriedOverInTurn(first, middle, before) && CarriedOver(last, after, middle);
      CopiesKeepBodies(first, middle, before, decode, key);
      CopyKeepsBodies(last, after, middle, decode, key);
    }
  }

  /**
   * After any migration or restore, a battery of a new entry starts at zero from
   * whichever store file it loads, unless a record under its own key was there
   * before; so it goes on from its old record exactly when that one was empty.
   */
  lemma TotalsStayBehind(rs: seq<Rebrand>, after: Files, before: Files, decode: Decoder,
                         oldName: string, newName: string, oldData: map<string, Record>, newData: map<string, Record>,
                         oldId: EntryId, newId: EntryId, battery: nat, today: int)
    requires CarriedOverInTurn(rs, after, before) && !Recorded(before, decode, RecordKey(newId, battery))
    requires LoadsFrom(oldData, before, oldName, decode) && LoadsFrom(newData, after, newName, decode)
    ensures Restored(newData, RecordKey(newId, battery), today) == Record(0.0, 0.0, Some(today))
    ensures Restored(newData, RecordKey(newId, battery), today) == Restored(oldData, RecordKey(oldId, battery), today) <==>
            Restored(oldData, RecordKey(oldId, battery), today) == Record(0.0, 0.0, Some(today))
  {
    var key := RecordKey(newId, battery);
    CopiesKeepBodies(rs, after, before, decode, key);
    assert key !in newData;
  }

  /** The old record itself is carried over, under its old key: only its new owner does not look there. */
  lemma OldRecordIsCarried(r: Rebrand, after: Files, before: Files, decode: Decoder, name: string,
                           newData: map<string, Record>)
    requires CarriedOver(r, after, before) && Eligible(r, name) && name in before && before[name].Dict?
    requires forall other | other in before && Eligible(r, other) && NewName(r, other) == NewName(r, name) :: other == name
    requires NewName(r, name) !in before && LoadsFrom(newData, after, NewName(r, name), decode)
    ensures LoadedFrom(newData, decode(before[name].body))
  {
    assert Readable(before[name]);
    var copy := NewName(r, name);
    assert copy in after;
    var source :| IsCopyOf(r, before, copy, source, after[copy]);
    assert source == name;
  }
}
