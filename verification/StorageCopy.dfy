/** Copying the integration's store files into the key namespace of another domain and entry. */
module StorageCopy {
  import opened Wrappers
  import opened Text
  import opened Sequences

  const BACKUP_SUFFIX := ".config_backup"

  /** A directory item; a readable document is a dictionary, perhaps with a `key`, or something else. */
  datatype File = Directory | Unreadable | Dict(key: Option<string>, body: string) | Other(body: string)

  type Files = map<string, File>

  datatype Rebrand = Rebrand(oldDomain: string, newDomain: string, oldEntryId: string, newEntryId: string)

  predicate Eligible(r: Rebrand, name: string) {
    && !EndsWith(name, BACKUP_SUFFIX)
    && (name == r.oldDomain || r.oldDomain + "." <= name || r.oldDomain + "_" <= name)
  }

  /** An eligible name starts with the old domain, so replacing its first occurrence replaces that prefix. */
  function NewName(r: Rebrand, name: string): string
    requires Eligible(r, name)
  {
    var renamed := r.newDomain + name[|r.oldDomain|..];
    if r.oldEntryId == "" then renamed else ReplaceAll(renamed, r.oldEntryId, r.newEntryId)
  }

  function Rekeyed(file: File, name: string): File {
    if file.Dict? && file.key.Some? then file.(key := Some(name)) else file
  }

  predicate Readable(file: File) { file.Dict? || file.Other? }

  /** This item would be copied now. */
  predicate Pending(r: Rebrand, files: Files, name: string) {
    name in files && Readable(files[name]) && Eligible(r, name) && NewName(r, name) !in files
  }

  datatype Copy = Copy(files: Files, written: seq<string>)

  function CopyOne(r: Rebrand, c: Copy, name: string): Copy {
    if Pending(r, c.files, name)
    then Copy(c.files[NewName(r, name) := Rekeyed(c.files[name], NewName(r, name))], c.written + [NewName(r, name)])
    else c
  }

  function CopyAll(r: Rebrand, files: Files, listing: seq<string>): Copy {
    var n := |listing|;
    if n == 0 then Copy(files, []) else CopyOne(r, CopyAll(r, files, listing[..n - 1]), listing[n - 1])
  }

  class StorageDirectory {
    var files: Files

    constructor (files: Files)
      ensures this.files == files
    {
      this.files := files;
    }

    /** `listing` is the directory as it was before the first file is written, in any order. */
    method MigrateStorageFiles(r: Rebrand, listing: seq<string>) returns (written: seq<string>)
      requires forall name | name in listing :: name in files
      modifies this
      ensures Copy(files, written) == CopyAll(r, old(files), listing)
    {
      written := [];
      for i := 0 to |listing|
        invariant Copy(files, written) == CopyAll(r, old(files), listing[..i])
        invariant forall name | name in listing :: name in files
      {
        PrefixGrows(listing, i);
        var name := listing[i];
        if files[name].Directory? {
          continue;
        }
        if EndsWith(name, BACKUP_SUFFIX) {
          continue;
        }
        if !(name == r.oldDomain || r.oldDomain + "." <= name || r.oldDomain + "_" <= name) {
          continue;
        }
        var newName := NewName(r, name);
        if newName in files {
          continue;
        }
        if files[name].Unreadable? {
          continue;
        }
        var content := files[name];
        if content.Dict? && content.key.Some? {
          content := content.(key := Some(newName));
        }
        files := files[newName := content];
        written := written + [newName];
      }
      WholePrefix(listing);
    }

    /** The directory's items in some order. */
    method Listing() returns (listing: seq<string>)
      ensures Lists(listing, files)
    {
      listing := [];
      var left := files.Keys;
      while left != {}
        invariant left <= files.Keys
        invariant forall name :: name in listing <==> name in files && name !in left
      {
        var name :| name in left;
        listing := listing + [name];
        left := left - {name};
      }
    }
  }

  ghost predicate Lists(listing: seq<string>, files: Files) {
    forall name :: name in listing <==> name in files
  }

  // ------------------------------------------------------------------ properties

  /** No existing file is altered or removed. */
  ghost predicate Extends(after: Files, before: Files) {
    forall name | name in before :: name in after && after[name] == before[name]
  }

  lemma {:induction false} CopyExtends(r: Rebrand, files: Files, listing: seq<string>)
    ensures Extends(CopyAll(r, files, listing).files, files)
  {
    if listing != [] {
      CopyExtends(r, files, listing[..|listing| - 1]);
    }
  }

  /** `name` is the copy of a listed file: eligible, readable, and rekeyed to its own name. */
  predicate IsCopyOf(r: Rebrand, files: Files, name: string, source: string, file: File) {
    && source in files && Readable(files[source]) && Eligible(r, source)
    && name == NewName(r, source) && file == Rekeyed(files[source], name)
  }

  /** Every written name is the copy of one listed file. */
  ghost predicate CopiesOf(r: Rebrand, files: Files, listing: seq<string>, c: Copy) {
    forall name | name in c.written :: name in c.files && exists source | source in listing :: IsCopyOf(r, files, name, source, c.files[name])
  }

  lemma OneMoreCopy(r: Rebrand, files: Files, front: seq<string>, name: string, before: Copy)
    requires CopiesOf(r, files, front, before) && Extends(before.files, files) && name in files
    ensures CopiesOf(r, files, front + [name], CopyOne(r, before, name))
  {
    var after := CopyOne(r, before, name);
    forall w | w in after.written
      ensures w in after.files && exists source | source in front + [name] :: IsCopyOf(r, files, w, source, after.files[w])
    {
      if w in before.written {
        var source :| source in front && IsCopyOf(r, files, w, source, before.files[w]);
        assert source in front + [name];
      } else {
        assert name in front + [name] && IsCopyOf(r, files, w, name, after.files[w]);
      }
    }
  }

  lemma {:induction false} WrittenAreNew(r: Rebrand, files: Files, listing: seq<string>)
    ensures var c := CopyAll(r, files, listing);
            && (forall name :: name in c.written <==> name in c.files && name !in files)
            && Distinct(c.written)
  {
    var n := |listing|;
    if n > 0 {
      WrittenAreNew(r, files, listing[..n - 1]);
      CopyExtends(r, files, listing[..n - 1]);
    }
  }

  lemma {:induction false} WrittenAreCopies(r: Rebrand, files: Files, listing: seq<string>)
    requires forall name | name in listing :: name in files
    ensures CopiesOf(r, files, listing, CopyAll(r, files, listing))
  {
    var n := |listing|;
    if n > 0 {
      WrittenAreCopies(r, files, listing[..n - 1]);
      CopyExtends(r, files, listing[..n - 1]);
      OneMoreCopy(r, files, listing[..n - 1], listing[n - 1], CopyAll(r, files, listing[..n - 1]));
      assert listing == listing[..n - 1] + [listing[n - 1]];
    }
  }

  /** The written names are exactly the new files, each the copy of one listed file. */
  lemma NewFilesAreCopies(r: Rebrand, files: Files, listing: seq<string>)
    requires forall name | name in listing :: name in files
    ensures var c := CopyAll(r, files, listing);
            && (forall name :: name in c.written <==> name in c.files && name !in files)
            && CopiesOf(r, files, listing, c) && Distinct(c.written)
  {
    WrittenAreNew(r, files, listing);
    WrittenAreCopies(r, files, listing);
  }

  /** A new file's inner key, when it has one, is its file name; and no backup file is ever the source. */
  lemma InnerKeyIsFileName(r: Rebrand, files: Files, listing: seq<string>, name: string)
    requires forall item | item in listing :: item in files
    requires name in CopyAll(r, files, listing).written
    ensures var c := CopyAll(r, files, listing);
            name in c.files && (c.files[name].Dict? && c.files[name].key.Some? ==> c.files[name].key.value == name)
    ensures exists source | source in listing :: !EndsWith(source, BACKUP_SUFFIX) && Eligible(r, source) && NewName(r, source) == name
  {
    NewFilesAreCopies(r, files, listing);
    var source :| source in listing && IsCopyOf(r, files, name, source, CopyAll(r, files, listing).files[name]);
  }

  /** Nothing listed is left to copy. */
  lemma {:induction false} NothingPendingAfter(r: Rebrand, files: Files, listing: seq<string>, name: string)
    requires name in listing && name in files
    ensures !Pending(r, CopyAll(r, files, listing).files, name)
  {
    var n := |listing|;
    var before := CopyAll(r, files, listing[..n - 1]);
    CopyExtends(r, files, listing[..n - 1]);
    if name in listing[..n - 1] {
      NothingPendingAfter(r, files, listing[..n - 1], name);
    }
  }

  /**
   * Every eligible readable file of `before` has its counterpart, nothing that was
   * there changed, and whatever is new is the rekeyed copy of one such file.
   */
  ghost predicate CarriedOver(r: Rebrand, after: Files, before: Files) {
    && Extends(after, before)
    && (forall name | name in before && Readable(before[name]) && Eligible(r, name) :: NewName(r, name) in after)
    && (forall name | name in after && name !in before :: exists source :: IsCopyOf(r, before, name, source, after[name]))
  }

  lemma CopyCarriesOver(r: Rebrand, files: Files, listing: seq<string>)
    requires Lists(listing, files)
    ensures CarriedOver(r, CopyAll(r, files, listing).files, files)
  {
    CopyExtends(r, files, listing);
    forall name | name in files && Readable(files[name]) && Eligible(r, name)
      ensures NewName(r, name) in CopyAll(r, files, listing).files
    {
      NothingPendingAfter(r, files, listing, name);
    }
    NewFilesAreCopies(r, files, listing);
  }

  /** Several copies, one after the other. */
  ghost predicate CarriedOverInTurn(rs: seq<Rebrand>, after: Files, before: Files)
    decreases rs
  {
    if rs == [] then after == before
    else
      var first, last := rs[..|rs| - 1], rs[|rs| - 1];
      exists middle: Files :: CarriedOverInTurn(first, middle, before) && CarriedOver(last, after, middle)
  }

  lemma AnotherCarriedOver(rs: seq<Rebrand>, i: nat, last: Files, middle: Files, before: Files)
    requires i < |rs| && CarriedOverInTurn(rs[..i], middle, before) && CarriedOver(rs[i], last, middle)
    ensures CarriedOverInTurn(rs[..i + 1], last, before)
  {
    PrefixGrows(rs, i);
  }

  /** The file `name` is the copy one of the renamings makes of a file that is still there. */
  ghost predicate IsSomeCopy(rs: seq<Rebrand>, files: Files, name: string, file: File) {
    exists r, source :: r in rs && IsCopyOf(r, files, name, source, file)
  }

  /**
   * After several copies in a row: no original file changed, every one of them has
   * its counterpart under every renaming, and every new file is a rekeyed copy.
   */
  lemma {:induction false} InTurnCarriesAll(rs: seq<Rebrand>, after: Files, before: Files)
    requires CarriedOverInTurn(rs, after, before)
    ensures Extends(after, before)
    ensures forall r, name | r in rs && name in before && Readable(before[name]) && Eligible(r, name) :: NewName(r, name) in after
    ensures forall name | name in after && name !in before :: IsSomeCopy(rs, after, name, after[name])
    decreases rs
  {
    var n := |rs|;
    if n > 0 {
      var middle: Files :| CarriedOverInTurn(rs[..n - 1], middle, before) && CarriedOver(rs[n - 1], after, middle);
      InTurnCarriesAll(rs[..n - 1], middle, before);
      PrefixGrows(rs, n - 1);
      WholePrefix(rs);
      forall name | name in after && name !in before ensures IsSomeCopy(rs, after, name, after[name]) {
        if name in middle {
          var r, source :| r in rs[..n - 1] && IsCopyOf(r, middle, name, source, middle[name]);
          assert r in rs && IsCopyOf(r, after, name, source, after[name]);
        } else {
          var source :| IsCopyOf(rs[n - 1], middle, name, source, after[name]);
          assert rs[n - 1] in rs && IsCopyOf(rs[n - 1], after, name, source, after[name]);
        }
      }
    }
  }

  /** A pass writes nothing exactly when nothing listed is pending. */
  lemma {:induction false} IdleExactly(r: Rebrand, files: Files, listing: seq<string>)
    ensures CopyAll(r, files, listing).written == [] <==> forall name | name in listing :: !Pending(r, files, name)
    ensures CopyAll(r, files, listing).written == [] ==> CopyAll(r, files, listing).files == files
  {
    var n := |listing|;
    if n > 0 {
      IdleExactly(r, files, listing[..n - 1]);
      assert listing == listing[..n - 1] + [listing[n - 1]];
    }
  }

  /**
   * A second copy writes nothing exactly when every file the first one wrote is
   * not itself eligible, or already has its own target.
   */
  lemma SecondCopyIdle(r: Rebrand, files: Files, listing: seq<string>, again: seq<string>)
    requires Lists(listing, files) && Lists(again, CopyAll(r, files, listing).files)
    ensures var c := CopyAll(r, files, listing);
            CopyAll(r, c.files, again).written == [] <==>
            forall name | name in c.written :: !Eligible(r, name) || NewName(r, name) in c.files
  {
    var c := CopyAll(r, files, listing);
    NewFilesAreCopies(r, files, listing);
    IdleExactly(r, c.files, again);
    forall name | name in files ensures !Pending(r, c.files, name) {
      NothingPendingAfter(r, files, listing, name);
    }
    forall name | name in c.written ensures Readable(c.files[name]) {
      var source :| source in listing && IsCopyOf(r, files, name, source, c.files[name]);
    }
  }

  // ------------------------------------------------------ which files, and their new names

  /** What is copied: names that are the old domain or go on after it with a delimiter, but no config backup. */
  lemma EligibleExact(r: Rebrand, name: string)
    ensures Eligible(r, name) <==>
            && r.oldDomain <= name && AtBoundary(name[|r.oldDomain|..])
            && !exists front :: name == front + ".config_backup"
  {
    NestedTail(r.oldDomain, name);
    EndsWithExact(name, ".config_backup");
  }

  /** What a copy holds: a document under its new inner key, if it had one, and otherwise the same text. */
  lemma CopyContent(r: Rebrand, files: Files, name: string, source: string, file: File)
    requires IsCopyOf(r, files, name, source, file)
    ensures files[source].Dict? ==> file == Dict(if files[source].key.Some? then Some(name) else None, files[source].body)
    ensures files[source].Other? ==> file == files[source]
  {
  }

  /** The old id, if there is one, is a word that neither the new domain nor this part of the name contains. */
  predicate IdAbsent(r: Rebrand, part: string) {
    IdApart(r) && (r.oldEntryId != "" ==> !Occurs(part, r.oldEntryId))
  }

  /** A file of the domain alone changes its domain and nothing else. */
  lemma DomainFileName(r: Rebrand, tail: string)
    requires AtBoundary(tail) && IdAbsent(r, tail) && Eligible(r, r.oldDomain + tail)
    ensures NewName(r, r.oldDomain + tail) == r.newDomain + tail
  {
    assert (r.oldDomain + tail)[|r.oldDomain|..] == tail;
    if r.oldEntryId != "" {
      ReplaceSplits(r.newDomain, tail, r.oldEntryId, r.newEntryId);
      ReplaceNothing(r.newDomain, r.oldEntryId, r.newEntryId);
      ReplaceNothing(tail, r.oldEntryId, r.newEntryId);
    }
  }

  lemma IdReplaced(oldId: string, newId: string, tail: string)
    requires IsWord(oldId) && AtBoundary(tail) && !Occurs(tail, oldId)
    ensures ReplaceAll(oldId + tail, oldId, newId) == newId + tail
  {
    ReplaceSplits(oldId, tail, oldId, newId);
    ReplaceNothing(tail, oldId, newId);
    assert oldId[|oldId|..] == "";
    assert ReplaceAll(oldId, oldId, newId) == newId + "" == newId;
  }

  /** The name of an entry's file, `tail` being what follows the entry id. */
  function EntryFile(domain: string, entryId: string, tail: string): string {
    domain + "." + entryId + tail
  }

  lemma EntryFileParts(domain: string, entryId: string, tail: string)
    ensures EntryFile(domain, entryId, tail) == domain + (['.'] + (entryId + tail))
  {
    ConcatAssoc(domain + ".", entryId, tail);
    ConcatAssoc(domain, ['.'], entryId + tail);
  }

  /** Behind the new domain the id is replaced in the rest of the name alone. */
  lemma NewNameOfRest(r: Rebrand, rest: string)
    requires Eligible(r, r.oldDomain + rest) && r.oldEntryId != "" && IdApart(r) && AtBoundary(rest)
    ensures NewName(r, r.oldDomain + rest) == r.newDomain + ReplaceAll(rest, r.oldEntryId, r.newEntryId)
  {
    DropFront(r.oldDomain, rest);
    ReplaceSplits(r.newDomain, rest, r.oldEntryId, r.newEntryId);
    ReplaceNothing(r.newDomain, r.oldEntryId, r.newEntryId);
  }

  /** A file of an entry changes its domain and its entry id, and nothing else. */
  lemma EntryFileName(r: Rebrand, tail: string)
    requires r.oldEntryId != "" && AtBoundary(tail) && IdAbsent(r, tail)
    requires Eligible(r, EntryFile(r.oldDomain, r.oldEntryId, tail))
    ensures NewName(r, EntryFile(r.oldDomain, r.oldEntryId, tail)) == EntryFile(r.newDomain, r.newEntryId, tail)
  {
    var rest := ['.'] + (r.oldEntryId + tail);
    EntryFileParts(r.oldDomain, r.oldEntryId, tail);
    EntryFileParts(r.newDomain, r.newEntryId, tail);
    NewNameOfRest(r, rest);
    ReplaceAtDelimiter('.', r.oldEntryId + tail, r.oldEntryId, r.newEntryId);
    IdReplaced(r.oldEntryId, r.newEntryId, tail);
  }

  lemma EntryFileEligible(r: Rebrand, tail: string)
    requires !exists front :: EntryFile(r.oldDomain, r.oldEntryId, tail) == front + ".config_backup"
    ensures Eligible(r, EntryFile(r.oldDomain, r.oldEntryId, tail))
  {
    var name := EntryFile(r.oldDomain, r.oldEntryId, tail);
    assert name[|r.oldDomain|..] == "." + r.oldEntryId + tail;
    EligibleExact(r, name);
  }

  /** After a copy, the new entry finds each file of the old one under its own name, and it is a copy unless it was there. */
  lemma EntryFileFollows(r: Rebrand, after: Files, before: Files, tail: string)
    requires CarriedOver(r, after, before) && r.oldEntryId != "" && AtBoundary(tail) && IdAbsent(r, tail)
    requires EntryFile(r.oldDomain, r.oldEntryId, tail) in before && Readable(before[EntryFile(r.oldDomain, r.oldEntryId, tail)])
    requires !exists front :: EntryFile(r.oldDomain, r.oldEntryId, tail) == front + ".config_backup"
    ensures var name := EntryFile(r.newDomain, r.newEntryId, tail);
            && name in after
            && (name !in before ==> exists source :: IsCopyOf(r, before, name, source, after[name]))
  {
    EntryFileEligible(r, tail);
    EntryFileName(r, tail);
  }

  /** The same after several copies in a row, for each of them. */
  lemma EntryFilesFollow(rs: seq<Rebrand>, r: Rebrand, after: Files, before: Files, tail: string)
    requires CarriedOverInTurn(rs, after, before) && r in rs
    requires r.oldEntryId != "" && AtBoundary(tail) && IdAbsent(r, tail)
    requires EntryFile(r.oldDomain, r.oldEntryId, tail) in before && Readable(before[EntryFile(r.oldDomain, r.oldEntryId, tail)])
    requires !exists front :: EntryFile(r.oldDomain, r.oldEntryId, tail) == front + ".config_backup"
    ensures EntryFile(r.newDomain, r.newEntryId, tail) in after
  {
    InTurnCarriesAll(rs, after, before);
    EntryFileEligible(r, tail);
    EntryFileName(r, tail);
  }

  // ------------------------------------------- which domains make it idle for every directory

  /** `longer` goes on after `domain` with a delimiter. */
  predicate Nested(domain: string, longer: string) {
    domain + "." <= longer || domain + "_" <= longer
  }

  predicate Separate(a: string, b: string) {
    a != b && !Nested(a, b) && !Nested(b, a)
  }

  lemma NestedTail(domain: string, longer: string)
    ensures Nested(domain, longer) <==> domain < longer && IsDelimiter(longer[|domain|])
  {
    if domain < longer {
      assert longer == domain + longer[|domain|..];
      var c := longer[|domain|];
      assert domain + [c] <= longer;
      assert domain + "." <= longer ==> longer[|domain|] == '.';
      assert domain + "_" <= longer ==> longer[|domain|] == '_';
    }
  }

  /** An eligible name is the old domain, and then nothing or a delimiter. */
  lemma EligibleTail(r: Rebrand, name: string)
    requires Eligible(r, name)
    ensures r.oldDomain <= name && AtBoundary(name[|r.oldDomain|..])
  {
    if name != r.oldDomain {
      NestedTail(r.oldDomain, name);
    }
  }

  /** A prefix of two joined strings is one of the first, or reaches into the second. */
  lemma PrefixOfJoined(a: string, b: string, rest: string)
    ensures a <= b + rest ==> a <= b || (b < a && rest != "" && a[|b|] == rest[0])
  {
    if a <= b + rest {
      assert a == (b + rest)[..|a|];
      assert |a| > |b| ==> a[..|b|] == b && a[|b|] == (b + rest)[|b|];
    }
  }

  /** What follows a separate domain after a delimiter does not begin with the old one. */
  lemma SeparateNames(oldDomain: string, newDomain: string, rest: string)
    requires Separate(oldDomain, newDomain) && AtBoundary(rest)
    ensures newDomain + rest != oldDomain && !Nested(oldDomain, newDomain + rest)
  {
    NestedTail(oldDomain, newDomain + rest);
    NestedTail(oldDomain, newDomain);
    NestedTail(newDomain, oldDomain);
    PrefixOfJoined(oldDomain, newDomain, rest);
    assert oldDomain < newDomain ==> (newDomain + rest)[|oldDomain|] == newDomain[|oldDomain|];
  }

  /** The old entry id names no part of the new domain, and no delimiter is part of it. */
  predicate IdApart(r: Rebrand) {
    r.oldEntryId == "" || (IsWord(r.oldEntryId) && !Occurs(r.newDomain, r.oldEntryId))
  }

  lemma NewNameTail(r: Rebrand, name: string) returns (rest: string)
    requires Eligible(r, name) && IdApart(r)
    ensures NewName(r, name) == r.newDomain + rest && AtBoundary(rest)
  {
    EligibleTail(r, name);
    rest := name[|r.oldDomain|..];
    if r.oldEntryId != "" {
      ReplaceSplits(r.newDomain, rest, r.oldEntryId, r.newEntryId);
      ReplaceNothing(r.newDomain, r.oldEntryId, r.newEntryId);
      BoundaryStays(rest, r.oldEntryId, r.newEntryId);
      rest := ReplaceAll(rest, r.oldEntryId, r.newEntryId);
    }
  }

  lemma BoundaryStays(rest: string, before: string, after: string)
    requires IsWord(before) && AtBoundary(rest)
    ensures AtBoundary(ReplaceAll(rest, before, after))
  {
    if rest != "" {
      assert rest == [rest[0]] + rest[1..];
      ReplaceAtDelimiter(rest[0], rest[1..], before, after);
    }
  }

  /** Between two separate domains a second copy writes nothing, whatever the directory holds. */
  lemma SeparateDomainsIdle(r: Rebrand, files: Files, listing: seq<string>, again: seq<string>)
    requires Lists(listing, files) && Lists(again, CopyAll(r, files, listing).files)
    requires Separate(r.oldDomain, r.newDomain) && IdApart(r)
    ensures CopyAll(r, CopyAll(r, files, listing).files, again).written == []
  {
    var c := CopyAll(r, files, listing);
    NewFilesAreCopies(r, files, listing);
    forall name | name in c.written ensures !Eligible(r, name) {
      var source :| source in listing && IsCopyOf(r, files, name, source, c.files[name]);
      var rest := NewNameTail(r, source);
      SeparateNames(r.oldDomain, r.newDomain, rest);
    }
    SecondCopyIdle(r, files, listing, again);
  }

  const LEGACY_DOMAIN := "marstek_venus_energy_manager"
  const DOMAIN := "omnibattery"

  /** So it is between the two names the integration has had, for every entry id longer than the new one. */
  lemma LegacyCopyIdle(r: Rebrand, files: Files, listing: seq<string>, again: seq<string>)
    requires r.oldDomain == LEGACY_DOMAIN && r.newDomain == DOMAIN
    requires r.oldEntryId == "" || (IsWord(r.oldEntryId) && |r.oldEntryId| > |DOMAIN|)
    requires Lists(listing, files) && Lists(again, CopyAll(r, files, listing).files)
    ensures CopyAll(r, CopyAll(r, files, listing).files, again).written == []
  {
    assert LEGACY_DOMAIN[0] != DOMAIN[0];
    NestedTail(LEGACY_DOMAIN, DOMAIN);
    NestedTail(DOMAIN, LEGACY_DOMAIN);
    SeparateDomainsIdle(r, files, listing, again);
  }

  /** Restoring under the same domain: idle when the old id always stands alone in the eligible names. */
  lemma SameDomainIdle(r: Rebrand, files: Files, listing: seq<string>, again: seq<string>)
    requires Lists(listing, files) && Lists(again, CopyAll(r, files, listing).files)
    requires r.oldDomain == r.newDomain
    requires r.oldEntryId != "" ==> IsWord(r.oldEntryId) && !Occurs(r.newEntryId, r.oldEntryId)
    requires r.oldEntryId != "" ==> forall name | name in files && Eligible(r, name) :: Alone(name, r.oldEntryId)
    ensures CopyAll(r, CopyAll(r, files, listing).files, again).written == []
  {
    var c := CopyAll(r, files, listing);
    NewFilesAreCopies(r, files, listing);
    forall name | name in c.written && Eligible(r, name) ensures NewName(r, name) in c.files {
      var source :| source in listing && IsCopyOf(r, files, name, source, c.files[name]);
      SameDomainSettles(r, source);
    }
    SecondCopyIdle(r, files, listing, again);
  }

  lemma SameDomainSettles(r: Rebrand, source: string)
    requires r.oldDomain == r.newDomain && Eligible(r, source) && Eligible(r, NewName(r, source))
    requires r.oldEntryId != "" ==>
               IsWord(r.oldEntryId) && !Occurs(r.newEntryId, r.oldEntryId) && Alone(source, r.oldEntryId)
    ensures NewName(r, NewName(r, source)) == NewName(r, source)
  {
    SameDomainName(r, source);
    SameDomainName(r, NewName(r, source));
    if r.oldEntryId != "" {
      ReplaceNothing(r.newEntryId, r.oldEntryId, r.newEntryId);
      ReplaceTwice(source, r.oldEntryId, r.newEntryId);
    }
  }

  lemma SameDomainName(r: Rebrand, name: string)
    requires r.oldDomain == r.newDomain && Eligible(r, name)
    ensures NewName(r, name) == if r.oldEntryId == "" then name else ReplaceAll(name, r.oldEntryId, r.newEntryId)
  {
    EligibleTail(r, name);
    assert r.newDomain + name[|r.oldDomain|..] == name;
  }

  /** A directory for which the second copy is not idle. */
  ghost predicate SecondCopyWrites(r: Rebrand, files: Files, listing: seq<string>, again: seq<string>) {
    && Lists(listing, files) && Lists(again, CopyAll(r, files, listing).files)
    && CopyAll(r, CopyAll(r, files, listing).files, again).written != []
  }

  /** One file whose copy is itself eligible, and its copy again a new name. */
  lemma OneFileCopiedTwice(r: Rebrand, first: string, second: string)
    requires Eligible(r, first) && NewName(r, first) == second != first
    requires Eligible(r, second) && NewName(r, second) != first && NewName(r, second) != second
    ensures SecondCopyWrites(r, map[first := Other("")], [first], [first, second])
  {
    var files: Files := map[first := Other("")];
    var c := CopyAll(r, files, [first]);
    assert [first][..0] == [];
    assert CopyAll(r, files, []) == Copy(files, []);
    assert c == CopyOne(r, Copy(files, []), first);
    assert c.files == map[first := Other(""), second := Other("")];
    assert [first, second][0] == first && [first, second][1] == second;
    assert Pending(r, c.files, second);
    IdleExactly(r, c.files, [first, second]);
  }

  /** `domain` and a file name that no backup has. */
  function Named(domain: string): string {
    domain + ".z"
  }

  lemma NamedIsEligible(r: Rebrand, domain: string)
    requires domain == r.oldDomain || Nested(r.oldDomain, domain)
    ensures Eligible(r, Named(domain))
  {
    var name := Named(domain);
    EndsWithLast(name, BACKUP_SUFFIX);
    assert name[|name| - 1] == 'z' != BACKUP_SUFFIX[|BACKUP_SUFFIX| - 1];
    if domain == r.oldDomain {
      assert name == domain + "." + "z";
    }
  }

  lemma NamedMoves(r: Rebrand, tail: string)
    requires r.oldEntryId == "" && Eligible(r, Named(r.oldDomain + tail))
    ensures NewName(r, Named(r.oldDomain + tail)) == Named(r.newDomain + tail)
  {
    assert Named(r.oldDomain + tail)[|r.oldDomain|..] == tail + ".z";
    assert r.newDomain + (tail + ".z") == r.newDomain + tail + ".z";
  }

  lemma NestedDomainsWrite(r: Rebrand)
    requires r.oldEntryId == "" && (Nested(r.oldDomain, r.newDomain) || Nested(r.newDomain, r.oldDomain))
    ensures exists files, listing, again :: SecondCopyWrites(r, files, listing, again)
  {
    NestedTail(r.oldDomain, r.newDomain);
    NestedTail(r.newDomain, r.oldDomain);
    NamedIsEligible(r, r.oldDomain);
    if Nested(r.oldDomain, r.newDomain) {
      var more := r.newDomain[|r.oldDomain|..];
      assert r.newDomain == r.oldDomain + more && r.oldDomain + "" == r.oldDomain && r.newDomain + "" == r.newDomain;
      NamedIsEligible(r, r.newDomain);
      NamedMoves(r, "");
      NamedMoves(r, more);
      OneFileCopiedTwice(r, Named(r.oldDomain), Named(r.newDomain));
    } else {
      var more := r.oldDomain[|r.newDomain|..];
      assert r.oldDomain == r.newDomain + more && r.oldDomain + "" == r.oldDomain && r.newDomain + "" == r.newDomain;
      var longer := r.oldDomain + more;
      assert longer[|r.oldDomain|] == more[0] == r.oldDomain[|r.newDomain|];
      NestedTail(r.oldDomain, longer);
      NamedIsEligible(r, longer);
      NamedMoves(r, more);
      NamedMoves(r, "");
      OneFileCopiedTwice(r, Named(longer), Named(r.oldDomain));
    }
  }

  /** Without entry ids: a second copy is idle for every directory exactly when the domains are equal or separate. */
  lemma SecondCopyExact(r: Rebrand)
    requires r.oldEntryId == ""
    ensures (forall files, listing, again :: !SecondCopyWrites(r, files, listing, again)) <==>
            r.oldDomain == r.newDomain || Separate(r.oldDomain, r.newDomain)
  {
    if r.oldDomain == r.newDomain || Separate(r.oldDomain, r.newDomain) {
      forall files, listing, again ensures !SecondCopyWrites(r, files, listing, again) {
        if Lists(listing, files) && Lists(again, CopyAll(r, files, listing).files) {
          if r.oldDomain == r.newDomain {
            SameDomainIdle(r, files, listing, again);
          } else {
            SeparateDomainsIdle(r, files, listing, again);
          }
        }
      }
    } else {
      NestedDomainsWrite(r);
    }
  }
}
