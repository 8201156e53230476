/** Renaming a battery's unique ids when its address changes, so that its history follows it. */
module AddressChange {
  import opened Wrappers
  import opened Text
  import opened Sequences
  import opened HomeAssistantModel

  /** `host_port`, with the slave number appended unless it is 1. */
  function DeviceKey(host: string, port: nat, slave: nat): string {
    host + "_" + Decimal(port) + (if slave == 1 then "" else "_" + Decimal(slave))
  }

  /** What every unique id of the device starts with. */
  function Prefix(deviceKey: string): string {
    deviceKey + "_"
  }

  predicate StartsWith(uid: string, prefix: string) {
    prefix <= uid
  }

  function Retarget(uid: string, oldPrefix: string, newPrefix: string): string
    requires StartsWith(uid, oldPrefix)
  {
    newPrefix + uid[|oldPrefix|..]
  }

  /** The suffix, all that distinguishes the device's entities, is kept. */
  lemma RetargetKeepsSuffix(oldPrefix: string, newPrefix: string, suffix: string)
    ensures StartsWith(oldPrefix + suffix, oldPrefix)
    ensures Retarget(oldPrefix + suffix, oldPrefix, newPrefix) == newPrefix + suffix
  {
    assert (oldPrefix + suffix)[|oldPrefix|..] == suffix;
  }

  lemma RetargetInjective(a: string, b: string, oldPrefix: string, newPrefix: string)
    requires StartsWith(a, oldPrefix) && StartsWith(b, oldPrefix)
    requires Retarget(a, oldPrefix, newPrefix) == Retarget(b, oldPrefix, newPrefix)
    ensures a == b
  {
    var x, y := a[|oldPrefix|..], b[|oldPrefix|..];
    assert (newPrefix + x)[|newPrefix|..] == x && (newPrefix + y)[|newPrefix|..] == y;
    assert a == oldPrefix + x && b == oldPrefix + y;
  }

  lemma RetargetBack(uid: string, oldPrefix: string, newPrefix: string)
    requires StartsWith(uid, oldPrefix)
    ensures StartsWith(Retarget(uid, oldPrefix, newPrefix), newPrefix)
    ensures Retarget(Retarget(uid, oldPrefix, newPrefix), newPrefix, oldPrefix) == uid
  {
    var suffix := uid[|oldPrefix|..];
    assert uid == oldPrefix + suffix;
    RetargetKeepsSuffix(newPrefix, oldPrefix, suffix);
  }

  predicate Touched(r: RegistryEntry, entry: EntryId, oldPrefix: string) {
    r.configEntryId == Some(entry) && StartsWith(r.uniqueId, oldPrefix)
  }

  function RewrittenEntry(r: RegistryEntry, entry: EntryId, oldPrefix: string, newPrefix: string): RegistryEntry {
    if Touched(r, entry, oldPrefix) then r.(uniqueId := Retarget(r.uniqueId, oldPrefix, newPrefix)) else r
  }

  function Rewritten(registry: Registry, entry: EntryId, oldPrefix: string, newPrefix: string): Registry {
    map e | e in registry :: RewrittenEntry(registry[e], entry, oldPrefix, newPrefix)
  }

  /** The registry's entities in some order. */
  ghost predicate Orders(listing: seq<EntityId>, registry: Registry) {
    Distinct(listing) && forall e :: e in listing <==> e in registry
  }

  class EntityRegistry {
    var entities: Registry

    constructor (entities: Registry)
      ensures this.entities == entities
    {
      this.entities := entities;
    }

    /** Refuses a unique id some entity of the same kind and platform already has. */
    method UpdateUniqueId(e: EntityId, uid: string) returns (ok: bool)
      requires e in entities
      modifies this
      ensures ok <==> forall f | f in old(entities) :: !SameKey(old(entities)[f], old(entities)[e].(uniqueId := uid))
      ensures entities == if ok then old(entities)[e := old(entities)[e].(uniqueId := uid)] else old(entities)
    {
      var wanted := entities[e].(uniqueId := uid);
      if exists f | f in entities :: SameKey(entities[f], wanted) {
        return false;
      }
      entities := entities[e := wanted];
      return true;
    }

    /** One pass over the entities as they were at the start, in some order; a refusal aborts it midway. */
    method MigrateBatteryRegistryIds(entry: EntryId, oldKey: string, newKey: string, listing: seq<EntityId>) returns (ok: bool)
      requires KeysUnique(entities) && Orders(listing, entities)
      modifies this
      ensures ok <==> Completes(old(entities), listing, entry, Prefix(oldKey), Prefix(newKey))
      ensures ok ==> entities == Rewritten(old(entities), entry, Prefix(oldKey), Prefix(newKey))
      ensures !ok ==> exists i, f :: AbortedAt(entities, old(entities), listing, entry, Prefix(oldKey), Prefix(newKey), i, f)
    {
      var oldPrefix, newPrefix := Prefix(oldKey), Prefix(newKey);
      ghost var snapshot := entities;
      for i := 0 to |listing|
        invariant RenamedUpTo(entities, snapshot, listing, entry, oldPrefix, newPrefix, i)
      {
        var done := RenameNext(entry, oldPrefix, newPrefix, listing, i, snapshot);
        if !done {
          AbortedIsIncomplete(entities, snapshot, listing, entry, oldPrefix, newPrefix);
          return false;
        }
      }
      RenamedAll(entities, snapshot, listing, entry, oldPrefix, newPrefix);
      return true;
    }

    /** The `i`-th entity, still as it was in the snapshot. */
    method RenameNext(entry: EntryId, oldPrefix: string, newPrefix: string, listing: seq<EntityId>, i: nat, ghost snapshot: Registry)
      returns (ok: bool)
      requires KeysUnique(snapshot) && Orders(listing, snapshot) && i < |listing|
      requires RenamedUpTo(entities, snapshot, listing, entry, oldPrefix, newPrefix, i)
      modifies this
      ensures ok ==> RenamedUpTo(entities, snapshot, listing, entry, oldPrefix, newPrefix, i + 1)
      ensures !ok ==> exists j, f :: AbortedAt(entities, snapshot, listing, entry, oldPrefix, newPrefix, j, f)
    {
      var e := listing[i];
      NextIsNew(listing, i);
      PrefixGrows(listing, i);
      MidwayStep(entities, snapshot, listing, i, entry, oldPrefix, newPrefix);
      ok := true;
      if Touched(entities[e], entry, oldPrefix) {
        ok := UpdateUniqueId(e, Retarget(entities[e].uniqueId, oldPrefix, newPrefix));
        if !ok {
          ghost var f :| Blocked(snapshot, listing, entry, oldPrefix, newPrefix, i, f);
          assert AbortedAt(entities, snapshot, listing, entry, oldPrefix, newPrefix, i, f);
        }
      }
    }
  }

  /** The first `i` entities are renamed, and none of them was in another's way. */
  ghost predicate RenamedUpTo(now: Registry, snapshot: Registry, listing: seq<EntityId>, entry: EntryId,
                              oldPrefix: string, newPrefix: string, i: nat) {
    && i <= |listing| && Midway(now, snapshot, listing[..i], entry, oldPrefix, newPrefix)
    && forall j, f | j < i :: !Blocked(snapshot, listing, entry, oldPrefix, newPrefix, j, f)
  }

  lemma RenamedAll(now: Registry, snapshot: Registry, listing: seq<EntityId>, entry: EntryId, oldPrefix: string, newPrefix: string)
    requires Orders(listing, snapshot) && RenamedUpTo(now, snapshot, listing, entry, oldPrefix, newPrefix, |listing|)
    ensures Completes(snapshot, listing, entry, oldPrefix, newPrefix) && now == Rewritten(snapshot, entry, oldPrefix, newPrefix)
  {
    WholePrefix(listing);
  }

  lemma AbortedIsIncomplete(now: Registry, snapshot: Registry, listing: seq<EntityId>, entry: EntryId, oldPrefix: string, newPrefix: string)
    requires exists i, f :: AbortedAt(now, snapshot, listing, entry, oldPrefix, newPrefix, i, f)
    ensures !Completes(snapshot, listing, entry, oldPrefix, newPrefix)
  {
    var i, f :| AbortedAt(now, snapshot, listing, entry, oldPrefix, newPrefix, i, f);
    assert Blocked(snapshot, listing, entry, oldPrefix, newPrefix, i, f);
  }

  /** The registry while the listed entities have been handled and the others not. */
  ghost predicate Midway(now: Registry, snapshot: Registry, handled: seq<EntityId>,
                         entry: EntryId, oldPrefix: string, newPrefix: string) {
    && now.Keys == snapshot.Keys
    && forall e | e in snapshot :: now[e] ==
         if e in handled then RewrittenEntry(snapshot[e], entry, oldPrefix, newPrefix) else snapshot[e]
  }

  /** No entity has a unique id that the renaming is about to hand out. */
  ghost predicate TargetsFree(registry: Registry, entry: EntryId, oldPrefix: string, newPrefix: string) {
    forall e, f | e in registry && f in registry && Touched(registry[e], entry, oldPrefix) ::
      !SameKey(registry[f], RewrittenEntry(registry[e], entry, oldPrefix, newPrefix))
  }

  /**
   * Entity `f` holds the unique id the `i`-th one is to get: it has it from the
   * start and is not itself renamed before the `i`-th one is.
   */
  predicate Blocked(registry: Registry, listing: seq<EntityId>, entry: EntryId, oldPrefix: string, newPrefix: string,
                    i: int, f: EntityId) {
    && 0 <= i < |listing| && listing[i] in registry && f in registry
    && Touched(registry[listing[i]], entry, oldPrefix)
    && SameKey(registry[f], RewrittenEntry(registry[listing[i]], entry, oldPrefix, newPrefix))
    && !(Touched(registry[f], entry, oldPrefix) && f in listing[..i])
  }

  ghost predicate Completes(registry: Registry, listing: seq<EntityId>, entry: EntryId, oldPrefix: string, newPrefix: string) {
    forall i, f :: !Blocked(registry, listing, entry, oldPrefix, newPrefix, i, f)
  }

  ghost predicate FirstBlocked(registry: Registry, listing: seq<EntityId>, entry: EntryId, oldPrefix: string, newPrefix: string,
                               i: int, f: EntityId) {
    && Blocked(registry, listing, entry, oldPrefix, newPrefix, i, f)
    && forall j, g | j < i :: !Blocked(registry, listing, entry, oldPrefix, newPrefix, j, g)
  }

  /** Stopped by `f` at the `i`-th entity, with exactly those before it renamed. */
  ghost predicate AbortedAt(now: Registry, registry: Registry, listing: seq<EntityId>, entry: EntryId,
                            oldPrefix: string, newPrefix: string, i: int, f: EntityId) {
    && FirstBlocked(registry, listing, entry, oldPrefix, newPrefix, i, f)
    && Midway(now, registry, listing[..i], entry, oldPrefix, newPrefix)
  }

  lemma RewrittenKeysDiffer(a: RegistryEntry, b: RegistryEntry, entry: EntryId, oldPrefix: string, newPrefix: string)
    requires Touched(a, entry, oldPrefix) && Touched(b, entry, oldPrefix) && !SameKey(a, b)
    ensures !SameKey(RewrittenEntry(a, entry, oldPrefix, newPrefix), RewrittenEntry(b, entry, oldPrefix, newPrefix))
  {
    if SameKey(RewrittenEntry(a, entry, oldPrefix, newPrefix), RewrittenEntry(b, entry, oldPrefix, newPrefix)) {
      RetargetInjective(a.uniqueId, b.uniqueId, oldPrefix, newPrefix);
    }
  }

  /** Handling one more entity: when exactly it is refused, and what the registry is otherwise. */
  lemma MidwayStep(now: Registry, snapshot: Registry, listing: seq<EntityId>, i: nat,
                   entry: EntryId, oldPrefix: string, newPrefix: string)
    requires KeysUnique(snapshot) && i < |listing| && Midway(now, snapshot, listing[..i], entry, oldPrefix, newPrefix)
    requires listing[i] in snapshot && listing[i] !in listing[..i]
    ensures var e := listing[i];
            var target := RewrittenEntry(snapshot[e], entry, oldPrefix, newPrefix);
            && now[e] == snapshot[e]
            && Midway(now[e := target], snapshot, listing[..i] + [e], entry, oldPrefix, newPrefix)
            && (Touched(snapshot[e], entry, oldPrefix) ==>
                  forall f | f in now :: SameKey(now[f], target) <==> Blocked(snapshot, listing, entry, oldPrefix, newPrefix, i, f))
            && (!Touched(snapshot[e], entry, oldPrefix) ==> now[e := target] == now)
  {
    var e := listing[i];
    var target := RewrittenEntry(snapshot[e], entry, oldPrefix, newPrefix);
    if Touched(snapshot[e], entry, oldPrefix) {
      forall f | f in now
        ensures SameKey(now[f], target) <==> Blocked(snapshot, listing, entry, oldPrefix, newPrefix, i, f)
      {
        if f in listing[..i] && Touched(snapshot[f], entry, oldPrefix) {
          RewrittenKeysDiffer(snapshot[f], snapshot[e], entry, oldPrefix, newPrefix);
        }
      }
    }
  }

  // ------------------------------------------------------------------ properties

  /**
   * When the renaming completes, in whatever order, entity ids stay, untouched
   * entities are unchanged, and no two entities end up under one key.
   */
  lemma RenameKeepsIdentity(registry: Registry, listing: seq<EntityId>, entry: EntryId, oldPrefix: string, newPrefix: string)
    requires KeysUnique(registry) && Orders(listing, registry)
    requires Completes(registry, listing, entry, oldPrefix, newPrefix)
    ensures Rewritten(registry, entry, oldPrefix, newPrefix).Keys == registry.Keys
    ensures KeysUnique(Rewritten(registry, entry, oldPrefix, newPrefix))
    ensures forall e | e in registry && (registry[e].configEntryId != Some(entry) || !StartsWith(registry[e].uniqueId, oldPrefix)) ::
              Rewritten(registry, entry, oldPrefix, newPrefix)[e] == registry[e]
  {
    var after := Rewritten(registry, entry, oldPrefix, newPrefix);
    forall e, f | e in after && f in after && e != f ensures !SameKey(after[e], after[f]) {
      assert !SameKey(registry[e], registry[f]);
      if Touched(registry[e], entry, oldPrefix) && Touched(registry[f], entry, oldPrefix) {
        RewrittenKeysDiffer(registry[e], registry[f], entry, oldPrefix, newPrefix);
      } else if Touched(registry[e], entry, oldPrefix) {
        KeepsClearOf(registry, listing, entry, oldPrefix, newPrefix, e, f);
      } else if Touched(registry[f], entry, oldPrefix) {
        KeepsClearOf(registry, listing, entry, oldPrefix, newPrefix, f, e);
      }
    }
  }

  lemma KeepsClearOf(registry: Registry, listing: seq<EntityId>, entry: EntryId, oldPrefix: string, newPrefix: string,
                     e: EntityId, f: EntityId)
    requires Completes(registry, listing, entry, oldPrefix, newPrefix) && e in listing && e in registry && f in registry
    requires Touched(registry[e], entry, oldPrefix) && !Touched(registry[f], entry, oldPrefix)
    ensures !SameKey(registry[f], RewrittenEntry(registry[e], entry, oldPrefix, newPrefix))
  {
    var i :| 0 <= i < |listing| && listing[i] == e;
    assert !Blocked(registry, listing, entry, oldPrefix, newPrefix, i, f);
  }

  /** Some order puts `e` first. */
  lemma {:induction false} FirstInSomeOrder(left: set<EntityId>, e: EntityId) returns (listing: seq<EntityId>)
    requires e in left
    ensures listing != [] && listing[0] == e && Distinct(listing) && forall f :: f in listing <==> f in left
    decreases left
  {
    var rest := left - {e};
    if rest == {} {
      assert left == {e};
      return [e];
    }
    var f :| f in rest;
    var more := FirstInSomeOrder(rest, f);
    return [e] + more;
  }

  /** The renaming completes in every order exactly when no entity has a unique id it is about to hand out. */
  lemma AnyOrderCompletes(registry: Registry, entry: EntryId, oldPrefix: string, newPrefix: string)
    ensures TargetsFree(registry, entry, oldPrefix, newPrefix) <==>
            forall listing | Orders(listing, registry) :: Completes(registry, listing, entry, oldPrefix, newPrefix)
  {
    if TargetsFree(registry, entry, oldPrefix, newPrefix) {
      forall listing | Orders(listing, registry) ensures Completes(registry, listing, entry, oldPrefix, newPrefix) {
        forall i, f ensures !Blocked(registry, listing, entry, oldPrefix, newPrefix, i, f) {
        }
      }
    } else {
      var e, f :| e in registry && f in registry && Touched(registry[e], entry, oldPrefix)
        && SameKey(registry[f], RewrittenEntry(registry[e], entry, oldPrefix, newPrefix));
      var listing := FirstInSomeOrder(registry.Keys, e);
      assert Blocked(registry, listing, entry, oldPrefix, newPrefix, 0, f);
      assert Orders(listing, registry) && !Completes(registry, listing, entry, oldPrefix, newPrefix);
    }
  }

  /** Every entity of the device follows it to the new address under its old suffix, and changes in nothing else. */
  lemma DeviceFollows(registry: Registry, entry: EntryId, oldKey: string, newKey: string, e: EntityId, suffix: string)
    requires e in registry && registry[e].configEntryId == Some(entry) && registry[e].uniqueId == Prefix(oldKey) + suffix
    ensures Rewritten(registry, entry, Prefix(oldKey), Prefix(newKey))[e]
            == registry[e].(uniqueId := Prefix(newKey) + suffix)
  {
    RetargetKeepsSuffix(Prefix(oldKey), Prefix(newKey), suffix);
  }

  /** When the new prefix is fresh, changing the address back restores every unique id. */
  lemma RenameBack(registry: Registry, entry: EntryId, oldPrefix: string, newPrefix: string)
    requires forall e | e in registry && registry[e].configEntryId == Some(entry) :: !StartsWith(registry[e].uniqueId, newPrefix)
    ensures Rewritten(Rewritten(registry, entry, oldPrefix, newPrefix), entry, newPrefix, oldPrefix) == registry
  {
    forall e | e in registry
      ensures RewrittenEntry(RewrittenEntry(registry[e], entry, oldPrefix, newPrefix), entry, newPrefix, oldPrefix) == registry[e]
    {
      if Touched(registry[e], entry, oldPrefix) {
        RetargetBack(registry[e].uniqueId, oldPrefix, newPrefix);
      }
    }
  }

  /** The renaming of `oldKey` also takes hold of an entity of the device `other`. */
  predicate Captures(oldKey: string, other: string, suffix: string) {
    StartsWith(Prefix(other) + suffix, Prefix(oldKey))
  }

  /**
   * Another device of the entry is safe from the renaming, whatever its entities
   * are called, exactly when neither prefix extends the other.
   */
  lemma CaptureExact(oldKey: string, other: string)
    ensures (forall suffix :: !Captures(oldKey, other, suffix)) <==>
            !StartsWith(Prefix(other), Prefix(oldKey)) && !StartsWith(Prefix(oldKey), Prefix(other))
  {
    var p, q := Prefix(oldKey), Prefix(other);
    if StartsWith(q, p) {
      assert q + "" == q;
      assert Captures(oldKey, other, "");
    }
    if StartsWith(p, q) {
      assert q + p[|q|..] == p;
      assert Captures(oldKey, other, p[|q|..]);
    }
    forall suffix | Captures(oldKey, other, suffix) ensures StartsWith(q, p) || StartsWith(p, q) {
      var uid := q + suffix;
      assert uid[..|q|] == q && uid[..|p|] == p;
      if |p| <= |q| {
        assert q[..|p|] == uid[..|p|];
      } else {
        assert p[..|q|] == uid[..|q|];
      }
    }
  }

  /** What follows the host in a prefix: the port, and the slave number unless it is 1. */
  function SlavePart(slave: nat): string {
    if slave == 1 then "" else Decimal(slave) + "_"
  }

  function AfterHost(port: nat, slave: nat): string {
    Decimal(port) + "_" + SlavePart(slave)
  }

  lemma PrefixParts(host: string, port: nat, slave: nat)
    ensures Prefix(DeviceKey(host, port, slave)) == host + "_" + AfterHost(port, slave)
  {
    var base := host + "_" + Decimal(port);
    if slave == 1 {
      assert Prefix(DeviceKey(host, port, slave)) == base + "" + "_" == host + "_" + (Decimal(port) + "_" + "");
    } else {
      assert base + ("_" + Decimal(slave)) + "_" == host + "_" + (Decimal(port) + "_" + (Decimal(slave) + "_"));
    }
  }

  /** What precedes the first underscore. */
  lemma LeadingWord(a: string, b: string, x: string, y: string)
    requires '_' !in a && '_' !in b && StartsWith(b + "_" + y, a + "_" + x)
    ensures a == b
  {
    var u, v := a + "_" + x, b + "_" + y;
    assert forall i | 0 <= i < |a| :: v[i] == u[i] == a[i] && a[i] in a;
    assert v[|a|] == u[|a|] == '_';
    assert forall i | 0 <= i < |b| :: v[i] == b[i] && b[i] in b;
    assert v[|b|] == '_';
    assert |a| == |b|;
  }

  lemma LeadingNumber(m: nat, n: nat, x: string, y: string)
    requires StartsWith(Decimal(n) + "_" + y, Decimal(m) + "_" + x)
    ensures m == n
  {
    LeadingWord(Decimal(m), Decimal(n), x, y);
    DecimalRoundTrip(m);
    DecimalRoundTrip(n);
  }

  /** Devices of different hosts are safe from each other's renaming, if no host name has an underscore. */
  lemma OtherHostIsSafe(host: string, port: nat, slave: nat, otherHost: string, otherPort: nat, otherSlave: nat)
    requires '_' !in host && '_' !in otherHost && host != otherHost
    ensures forall suffix :: !Captures(DeviceKey(host, port, slave), DeviceKey(otherHost, otherPort, otherSlave), suffix)
  {
    HostPrefixesDiffer(host, port, slave, otherHost, otherPort, otherSlave);
    HostPrefixesDiffer(otherHost, otherPort, otherSlave, host, port, slave);
    CaptureExact(DeviceKey(host, port, slave), DeviceKey(otherHost, otherPort, otherSlave));
  }

  lemma HostPrefixesDiffer(host: string, port: nat, slave: nat, otherHost: string, otherPort: nat, otherSlave: nat)
    requires '_' !in host && '_' !in otherHost && host != otherHost
    ensures !StartsWith(Prefix(DeviceKey(otherHost, otherPort, otherSlave)), Prefix(DeviceKey(host, port, slave)))
  {
    PrefixParts(host, port, slave);
    PrefixParts(otherHost, otherPort, otherSlave);
    if StartsWith(Prefix(DeviceKey(otherHost, otherPort, otherSlave)), Prefix(DeviceKey(host, port, slave))) {
      LeadingWord(host, otherHost, AfterHost(port, slave), AfterHost(otherPort, otherSlave));
      assert false;
    }
  }

  /** With an underscore two hosts can share a key: slave 2 of one is slave 1 of the other. */
  lemma UnderscoreHostsCollide(host: string, port: nat, slave: nat)
    requires slave != 1
    ensures DeviceKey(host, port, slave) == DeviceKey(host + "_" + Decimal(port), slave, 1)
  {
    assert host + "_" + Decimal(port) + ("_" + Decimal(slave)) == host + "_" + Decimal(port) + "_" + Decimal(slave) + "";
  }

  /** Devices of one host on different ports are safe from each other's renaming, whatever their slave numbers. */
  lemma OtherPortIsSafe(host: string, port: nat, slave: nat, otherPort: nat, otherSlave: nat)
    requires port != otherPort
    ensures forall suffix :: !Captures(DeviceKey(host, port, slave), DeviceKey(host, otherPort, otherSlave), suffix)
  {
    PrefixesDiffer(host, port, slave, otherPort, otherSlave);
    PrefixesDiffer(host, otherPort, otherSlave, port, slave);
    CaptureExact(DeviceKey(host, port, slave), DeviceKey(host, otherPort, otherSlave));
  }

  lemma PrefixesDiffer(host: string, port: nat, slave: nat, otherPort: nat, otherSlave: nat)
    requires port != otherPort
    ensures !StartsWith(Prefix(DeviceKey(host, otherPort, otherSlave)), Prefix(DeviceKey(host, port, slave)))
  {
    PrefixParts(host, port, slave);
    PrefixParts(host, otherPort, otherSlave);
    if StartsWith(Prefix(DeviceKey(host, otherPort, otherSlave)), Prefix(DeviceKey(host, port, slave))) {
      PrefixBehind(host + "_", AfterHost(port, slave), AfterHost(otherPort, otherSlave));
      LeadingNumber(port, otherPort, SlavePart(slave), SlavePart(otherSlave));
      assert false;
    }
  }

  lemma PrefixBehind(front: string, a: string, b: string)
    requires StartsWith(front + b, front + a)
    ensures StartsWith(b, a)
  {
    assert (front + b)[|front|..] == b && (front + a)[|front|..] == a;
    assert forall i | 0 <= i < |a| :: (front + a)[|front| + i] == a[i];
  }

  /** Two devices of one host share a key only if they are the same port and slave. */
  lemma DeviceKeyInjective(host: string, port: nat, slave: nat, otherPort: nat, otherSlave: nat)
    requires DeviceKey(host, port, slave) == DeviceKey(host, otherPort, otherSlave)
    ensures port == otherPort && slave == otherSlave
  {
    PrefixParts(host, port, slave);
    PrefixParts(host, otherPort, otherSlave);
    DropFront(host + "_", AfterHost(port, slave));
    DropFront(host + "_", AfterHost(otherPort, otherSlave));
    LeadingNumber(port, otherPort, SlavePart(slave), SlavePart(otherSlave));
    DropFront(Decimal(port) + "_", SlavePart(slave));
    DropFront(Decimal(otherPort) + "_", SlavePart(otherSlave));
    SlavePartInjective(slave, otherSlave);
  }

  lemma SlavePartInjective(slave: nat, otherSlave: nat)
    requires SlavePart(slave) == SlavePart(otherSlave)
    ensures slave == otherSlave
  {
    if slave != 1 && otherSlave != 1 {
      assert SlavePart(slave) == Decimal(slave) + "_" + "" && SlavePart(otherSlave) == Decimal(otherSlave) + "_" + "";
      LeadingNumber(slave, otherSlave, "", "");
    }
  }

  /** The condition is needed: slave 1 shares its prefix with every other slave behind the same address. */
  lemma FirstSlaveCapturesTheOthers(host: string, port: nat, slave: nat, suffix: string)
    requires slave != 1
    ensures Captures(DeviceKey(host, port, 1), DeviceKey(host, port, slave), suffix)
  {
    var base := host + "_" + Decimal(port);
    assert DeviceKey(host, port, 1) == base;
    assert Prefix(DeviceKey(host, port, slave)) + suffix == Prefix(base) + (Decimal(slave) + "_" + suffix);
  }

  /** Entity `f` has the unique id the `i`-th one is to get, whoever it belongs to and whenever it is renamed. */
  predicate HoldsTarget(registry: Registry, listing: seq<EntityId>, entry: EntryId, oldPrefix: string, newPrefix: string,
                        i: int, f: EntityId) {
    && 0 <= i < |listing| && listing[i] in registry && f in registry
    && Touched(registry[listing[i]], entry, oldPrefix)
    && SameKey(registry[f], RewrittenEntry(registry[listing[i]], entry, oldPrefix, newPrefix))
  }

  /**
   * Slave 1 taking the number of another slave behind the same address completes
   * exactly when every holder of a wanted unique id is the same entry's and comes first.
   */
  lemma FirstSlaveMove(registry: Registry, listing: seq<EntityId>, entry: EntryId, host: string, port: nat, slave: nat)
    requires slave != 1
    ensures var oldPrefix, newPrefix := Prefix(DeviceKey(host, port, 1)), Prefix(DeviceKey(host, port, slave));
            Completes(registry, listing, entry, oldPrefix, newPrefix) <==>
            forall i, f | HoldsTarget(registry, listing, entry, oldPrefix, newPrefix, i, f) ::
              registry[f].configEntryId == Some(entry) && f in listing[..i]
  {
    var oldPrefix, newPrefix := Prefix(DeviceKey(host, port, 1)), Prefix(DeviceKey(host, port, slave));
    forall i, f | HoldsTarget(registry, listing, entry, oldPrefix, newPrefix, i, f)
      ensures StartsWith(registry[f].uniqueId, oldPrefix)
    {
      FirstSlaveCapturesTheOthers(host, port, slave, registry[listing[i]].uniqueId[|oldPrefix|..]);
    }
    if Completes(registry, listing, entry, oldPrefix, newPrefix) {
      forall i, f | HoldsTarget(registry, listing, entry, oldPrefix, newPrefix, i, f)
        ensures registry[f].configEntryId == Some(entry) && f in listing[..i]
      {
        assert !Blocked(registry, listing, entry, oldPrefix, newPrefix, i, f);
      }
    } else {
      var i, f :| Blocked(registry, listing, entry, oldPrefix, newPrefix, i, f);
      assert HoldsTarget(registry, listing, entry, oldPrefix, newPrefix, i, f);
    }
  }

  /** So with one sensor on each of the two slaves, the order of the registry alone decides. */
  lemma FirstSlaveMoveDependsOnOrder(host: string, port: nat, slave: nat, e: EntityId, f: EntityId, entry: EntryId,
                                     one: RegistryEntry, suffix: string)
    requires slave != 1 && e != f
    requires one.configEntryId == Some(entry) && one.uniqueId == Prefix(DeviceKey(host, port, 1)) + suffix
    ensures var oldPrefix, newPrefix := Prefix(DeviceKey(host, port, 1)), Prefix(DeviceKey(host, port, slave));
            var registry := map[e := one, f := one.(uniqueId := newPrefix + suffix)];
            && !Completes(registry, [e, f], entry, oldPrefix, newPrefix)
            && Completes(registry, [f, e], entry, oldPrefix, newPrefix)
  {
    var oldPrefix, newPrefix := Prefix(DeviceKey(host, port, 1)), Prefix(DeviceKey(host, port, slave));
    var other := one.(uniqueId := newPrefix + suffix);
    var registry := map[e := one, f := other];
    RetargetKeepsSuffix(oldPrefix, newPrefix, suffix);
    FirstSlaveMove(registry, [e, f], entry, host, port, slave);
    assert HoldsTarget(registry, [e, f], entry, oldPrefix, newPrefix, 0, f);
    FirstSlaveMove(registry, [f, e], entry, host, port, slave);
    RenamedTwiceIsLonger(host, port, slave, suffix);
    forall i, g | HoldsTarget(registry, [f, e], entry, oldPrefix, newPrefix, i, g)
      ensures registry[g].configEntryId == Some(entry) && g in [f, e][..i]
    {
      if i == 0 {
        assert false;
      } else {
        assert g == f && [f, e][..1] == [f];
      }
    }
  }

  /** The other slave's unique id becomes one that neither device has. */
  lemma RenamedTwiceIsLonger(host: string, port: nat, slave: nat, suffix: string)
    requires slave != 1
    ensures var oldPrefix, newPrefix := Prefix(DeviceKey(host, port, 1)), Prefix(DeviceKey(host, port, slave));
            && StartsWith(newPrefix + suffix, oldPrefix)
            && |Retarget(newPrefix + suffix, oldPrefix, newPrefix)| > |newPrefix + suffix| > |oldPrefix + suffix|
  {
    FirstSlaveCapturesTheOthers(host, port, slave, suffix);
    var base := host + "_" + Decimal(port);
    assert DeviceKey(host, port, slave) == base + "_" + Decimal(slave);
  }
}
