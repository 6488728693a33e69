/**
 The schema cache: entries under a bare key (the latest version) and under versioned keys, the
 per-ID list of versions seen, and the registered consumers. Ristretto is a map that may lose any
 entry at any time.
 */
module SchemaCache {
  import opened Prelude
  import opened OpenApi
  import opened Strings

  datatype Metadata = Metadata(version: string, hash: string)

  /** A registered schema; metadata is missing on entries set without it. */
  datatype SchemaEntry = SchemaEntry(document: Document, content: string, metadata: Option<Metadata>)

  datatype EndpointUsage = EndpointUsage(verb: string, path: string)

  datatype ConsumerEntry = ConsumerEntry(
    consumerId: string, schemaId: string, schemaVersion: string, environment: string,
    registeredAt: int, usedEndpoints: seq<EndpointUsage>)

  type Versions = map<string, seq<string>>
  type Entries = map<string, SchemaEntry>

  function VersionsOf(versions: Versions, id: string): seq<string> {
    if id in versions then versions[id] else []
  }

  /** versions with version tracked under id. */
  function Tracked(versions: Versions, id: string, version: string): Versions {
    if version in VersionsOf(versions, id) then versions
    else versions[id := Inserted(VersionsOf(versions, id), version)]
  }

  predicate IsVersioned(entry: SchemaEntry) {
    entry.metadata.Some? && entry.metadata.value.version != ""
  }

  /** entries after Set(id, entry). */
  function WithEntry(entries: Entries, id: string, entry: SchemaEntry): Entries {
    if IsVersioned(entry) then entries[id := entry][VersionedKey(id, entry.metadata.value.version) := entry]
    else entries[id := entry]
  }

  function ConsumerKey(consumerId: string, schemaId: string, environment: string): string {
    consumerId + "/" + schemaId + "/" + environment
  }

  /** consumers after RegisterConsumer(entry): an entry replaced passes on its registration time. */
  function WithConsumer(consumers: map<string, ConsumerEntry>, entry: ConsumerEntry): map<string, ConsumerEntry> {
    var key := ConsumerKey(entry.consumerId, entry.schemaId, entry.environment);
    consumers[key := if key in consumers then entry.(registeredAt := consumers[key].registeredAt) else entry]
  }

  /** Where the slashes of a key of slash-free parts are. */
  lemma SlashesOf(consumerId: string, schemaId: string, environment: string, i: nat)
    requires '/' !in consumerId && '/' !in schemaId && '/' !in environment
    requires i < |ConsumerKey(consumerId, schemaId, environment)|
    ensures ConsumerKey(consumerId, schemaId, environment)[i] == '/' <==> i == |consumerId| || i == |consumerId| + 1 + |schemaId|
  {
    var key := ConsumerKey(consumerId, schemaId, environment);
    if i < |consumerId| {
      assert key[i] == consumerId[i];
    } else if |consumerId| < i < |consumerId| + 1 + |schemaId| {
      assert key[i] == schemaId[i - |consumerId| - 1];
    } else if i > |consumerId| + 1 + |schemaId| {
      assert key[i] == environment[i - |consumerId| - |schemaId| - 2];
    }
  }

  /** A consumer without slashes has its key to itself. */
  lemma ConsumerKeyIsInjective(consumerId: string, schemaId: string, environment: string,
                               consumerId': string, schemaId': string, environment': string)
    requires '/' !in consumerId && '/' !in schemaId && '/' !in environment
    requires ConsumerKey(consumerId', schemaId', environment') == ConsumerKey(consumerId, schemaId, environment)
    ensures consumerId == consumerId' && schemaId == schemaId' && environment == environment'
  {
    var key := ConsumerKey(consumerId, schemaId, environment);
    var key' := consumerId' + "/" + schemaId' + "/" + environment';
    var i, j := |consumerId'|, |consumerId'| + 1 + |schemaId'|;
    assert key' == key && key'[i] == '/' && key'[j] == '/';
    SlashesOf(consumerId, schemaId, environment, i);
    SlashesOf(consumerId, schemaId, environment, j);
    assert consumerId == key[..i] && consumerId' == key'[..i];
    assert schemaId == key[i + 1..j] && schemaId' == key'[i + 1..j];
    assert environment == key[j + 1..] && environment' == key'[j + 1..];
  }

  ghost predicate SharesKey(consumerId: string, schemaId: string, environment: string) {
    exists c, s, e :: (c, s, e) != (consumerId, schemaId, environment)
      && ConsumerKey(c, s, e) == ConsumerKey(consumerId, schemaId, environment)
  }

  /** Some other consumer has the same key exactly when there is a slash in one of the three parts. */
  lemma SharesKeyIff(consumerId: string, schemaId: string, environment: string)
    ensures SharesKey(consumerId, schemaId, environment) <==> '/' in consumerId || '/' in schemaId || '/' in environment
  {
    var key := ConsumerKey(consumerId, schemaId, environment);
    if i :| 0 <= i < |consumerId| && consumerId[i] == '/' {
      assert ConsumerKey(consumerId[..i], consumerId[i + 1..] + "/" + schemaId, environment) == key;
    } else if i :| 0 <= i < |schemaId| && schemaId[i] == '/' {
      assert ConsumerKey(consumerId + "/" + schemaId[..i], schemaId[i + 1..], environment) == key;
    } else if i :| 0 <= i < |environment| && environment[i] == '/' {
      assert ConsumerKey(consumerId, schemaId + "/" + environment[..i], environment[i + 1..]) == key;
    } else if SharesKey(consumerId, schemaId, environment) {
      var c, s, e :| (c, s, e) != (consumerId, schemaId, environment) && ConsumerKey(c, s, e) == key;
      ConsumerKeyIsInjective(consumerId, schemaId, environment, c, s, e);
    }
  }

  predicate SameConsumer(a: ConsumerEntry, b: ConsumerEntry) {
    a.consumerId == b.consumerId && a.schemaId == b.schemaId && a.environment == b.environment
  }

  function KeyOf(entry: ConsumerEntry): string {
    ConsumerKey(entry.consumerId, entry.schemaId, entry.environment)
  }

  /** The consumer is on the list of its schema and environment that the deployment gate reads. */
  ghost predicate StaysListed(consumers: map<string, ConsumerEntry>, kept: ConsumerEntry) {
    exists c :: SameConsumer(c, kept) && ListedFrom(consumers, consumers.Keys, kept.schemaId, kept.environment, c)
  }

  ghost predicate WellKeyed(consumers: map<string, ConsumerEntry>) {
    forall key | key in consumers :: key == KeyOf(consumers[key])
  }

  /** Registering some other consumer takes this one off the list exactly when one of its own parts has a slash. */
  lemma OtherConsumerUnlistsIff(consumers: map<string, ConsumerEntry>, kept: ConsumerEntry)
    requires WellKeyed(consumers)
    ensures (exists entry :: !SameConsumer(entry, kept) && !StaysListed(WithConsumer(WithConsumer(consumers, kept), entry), kept))
       <==> '/' in kept.consumerId || '/' in kept.schemaId || '/' in kept.environment
  {
    SharesKeyIff(kept.consumerId, kept.schemaId, kept.environment);
    var first := WithConsumer(consumers, kept);
    if SharesKey(kept.consumerId, kept.schemaId, kept.environment) {
      var c, s, e :| (c, s, e) != (kept.consumerId, kept.schemaId, kept.environment) && ConsumerKey(c, s, e) == KeyOf(kept);
      var entry := kept.(consumerId := c, schemaId := s, environment := e);
      var after := WithConsumer(first, entry);
      assert KeyOf(entry) == KeyOf(kept) && !SameConsumer(entry, kept) && !SameConsumer(after[KeyOf(kept)], kept);
      assert WellKeyed(after);
      assert !StaysListed(after, kept);
    } else {
      forall entry | !SameConsumer(entry, kept) ensures StaysListed(WithConsumer(first, entry), kept) {
        var after := WithConsumer(first, entry);
        assert KeyOf(entry) != KeyOf(kept);
        assert ListedFrom(after, after.Keys, kept.schemaId, kept.environment, after[KeyOf(kept)]);
      }
    }
  }

  /** Two such consumers. */
  lemma SlashCollides()
    ensures ConsumerKey("a/b", "c", "prod") == ConsumerKey("a", "b/c", "prod")
  {
    assert "a/b" + "/" + "c" == "a" + "/" + "b/c";
  }

  /** previous is the greatest of versions before current, in string order; there is none unless current is one of them. */
  ghost predicate ComesBefore(versions: seq<string>, current: string, previous: Option<string>) {
    && (previous.Some? <==> current in versions && exists v :: v in versions && Precedes(v, current))
    && (previous.Some? ==>
          && previous.value in versions && Precedes(previous.value, current)
          && forall v :: v in versions && Precedes(v, current) ==> v == previous.value || Precedes(v, previous.value))
  }

  ghost predicate AllAscending(versions: Versions) {
    forall id | id in versions :: Ascending(versions[id])
  }

  /** key is the bare key of an ID in ids, or the key of a tracked version of one. */
  ghost predicate Covered(ids: set<string>, versions: Versions, key: string) {
    key in ids || exists id, v :: id in ids && v in VersionsOf(versions, id) && key == VersionedKey(id, v)
  }

  lemma TrackedKeepsOrder(versions: Versions, id: string, version: string)
    requires AllAscending(versions)
    ensures AllAscending(Tracked(versions, id, version))
    ensures Elements(VersionsOf(Tracked(versions, id, version), id)) == Elements(VersionsOf(versions, id)) + {version}
    ensures forall id' | id' != id :: VersionsOf(Tracked(versions, id, version), id') == VersionsOf(versions, id')
  {
    if version !in VersionsOf(versions, id) {
      InsertedIsAscending(VersionsOf(versions, id), version);
    }
  }

  lemma TrackedKeepsCover(ids: set<string>, versions: Versions, id: string, version: string, key: string)
    requires AllAscending(versions) && Covered(ids, versions, key)
    ensures Covered(ids, Tracked(versions, id, version), key)
  {
    if key !in ids {
      var id', v :| id' in ids && v in VersionsOf(versions, id') && key == VersionedKey(id', v);
      TrackedKeepsOrder(versions, id, version);
      assert v in Elements(VersionsOf(versions, id'));
      assert v in Elements(VersionsOf(Tracked(versions, id, version), id'));
    }
  }

  lemma TrackedCovers(ids: set<string>, versions: Versions, id: string, version: string)
    requires AllAscending(versions) && id in ids
    ensures Covered(ids, Tracked(versions, id, version), VersionedKey(id, version))
  {
    TrackedKeepsOrder(versions, id, version);
    assert version in Elements(VersionsOf(Tracked(versions, id, version), id));
  }

  class SchemaCache {
    var entries: Entries
    var schemaVersions: Versions
    var consumers: map<string, ConsumerEntry>
    /** Every ID the cache was ever asked to store. */
    ghost var ids: set<string>

    /** The version lists are sorted without duplicates and cover every versioned key present. */
    ghost predicate Valid()
      reads this
    {
      AllAscending(schemaVersions) && forall key | key in entries :: Covered(ids, schemaVersions, key)
    }

    constructor ()
      ensures Valid() && entries == map[] && schemaVersions == map[] && consumers == map[] && ids == {}
    {
      entries, schemaVersions, consumers, ids := map[], map[], map[], {};
    }

    method TrackVersion(id: string, version: string)
      requires AllAscending(schemaVersions)
      modifies this`schemaVersions
      ensures schemaVersions == Tracked(old(schemaVersions), id, version)
      ensures AllAscending(schemaVersions)
    {
      TrackedKeepsOrder(schemaVersions, id, version);
      var versions := VersionsOf(schemaVersions, id);
      for i := 0 to |versions|
        invariant version !in versions[..i]
      {
        if versions[i] == version {
          return;
        }
      }
      assert versions[..|versions|] == versions;
      var sorted := SortAppended(versions, version);
      schemaVersions := schemaVersions[id := sorted];
    }

    method Set(id: string, entry: SchemaEntry)
      requires Valid()
      modifies this`entries, this`schemaVersions, this`ids
      ensures Valid()
      ensures entries == WithEntry(old(entries), id, entry)
      ensures schemaVersions == if IsVersioned(entry) then Tracked(old(schemaVersions), id, entry.metadata.value.version) else old(schemaVersions)
      ensures ids == old(ids) + {id}
      ensures forall key ::
        if key == id || (entry.metadata.Some? && entry.metadata.value.version != "" && key == id + "@" + entry.metadata.value.version)
        then key in entries && entries[key] == entry
        else (key in entries <==> key in old(entries)) && (key in entries ==> entries[key] == old(entries)[key])
    {
      ids := ids + {id};
      entries := entries[id := entry];
      if IsVersioned(entry) {
        var version := entry.metadata.value.version;
        entries := entries[VersionedKey(id, version) := entry];
        ghost var before := schemaVersions;
        TrackVersion(id, version);
        TrackedCovers(ids, before, id, version);
        forall key | key in old(entries) ensures Covered(ids, schemaVersions, key) {
          assert Covered(old(ids), before, key);
          assert Covered(ids, before, key);
          TrackedKeepsCover(ids, before, id, version, key);
        }
      }
    }

    method SetVersion(id: string, version: string, entry: SchemaEntry)
      requires Valid()
      modifies this`entries, this`schemaVersions, this`ids
      ensures Valid()
      ensures entries == old(entries)[id + "@" + version := entry]
      ensures schemaVersions == Tracked(old(schemaVersions), id, version)
      ensures ids == old(ids) + {id}
    {
      ids := ids + {id};
      entries := entries[VersionedKey(id, version) := entry];
      ghost var before := schemaVersions;
      TrackVersion(id, version);
      TrackedCovers(ids, before, id, version);
      forall key | key in old(entries) ensures Covered(ids, schemaVersions, key) {
        assert Covered(old(ids), before, key);
        assert Covered(ids, before, key);
        TrackedKeepsCover(ids, before, id, version, key);
      }
    }

    method GetVersion(id: string, version: string) returns (entry: Option<SchemaEntry>)
      ensures var key := if version == "" then id else id + "@" + version;
        entry == if key in entries then Some(entries[key]) else None
    {
      var key := if version == "" then id else VersionedKey(id, version);
      entry := if key in entries then Some(entries[key]) else None;
    }

    /** Ristretto drops an entry: its TTL ran out, or it lost its place. */
    method Evict(key: string)
      requires Valid()
      modifies this`entries
      ensures Valid() && entries == old(entries) - {key}
    {
      entries := entries - {key};
    }

    /** Removes id at every version and, where no ID contains @, nothing of any other ID. */
    method Delete(id: string)
      requires Valid()
      modifies this`entries, this`schemaVersions
      ensures Valid()
      ensures entries == old(entries) - ({id} + set v | v in VersionsOf(old(schemaVersions), id) :: VersionedKey(id, v))
      ensures schemaVersions == old(schemaVersions) - {id}
      ensures (forall i | i in ids :: '@' !in i) && '@' !in id ==>
        && (forall v :: id !in entries && VersionedKey(id, v) !in entries)
        && (forall id', v | id' != id && '@' !in id' ::
              && (id' in old(entries) <==> id' in entries)
              && (VersionedKey(id', v) in old(entries) <==> VersionedKey(id', v) in entries))
    {
      entries := entries - {id};
      var versions := VersionsOf(schemaVersions, id);
      schemaVersions := schemaVersions - {id};
      for i := 0 to |versions|
        invariant entries == old(entries) - ({id} + set v | v in versions[..i] :: VersionedKey(id, v))
        invariant schemaVersions == old(schemaVersions) - {id}
      {
        assert versions[..i + 1] == versions[..i] + [versions[i]];
        entries := entries - {VersionedKey(id, versions[i])};
      }
      assert versions[..|versions|] == versions;
      DeletedKeepsCover(ids, old(entries), old(schemaVersions), id);
      if (forall i | i in ids :: '@' !in i) && '@' !in id {
        DeletedLeavesNone(ids, old(entries), old(schemaVersions), id);
      }
    }

    method ListVersions(id: string) returns (versions: seq<string>)
      ensures versions == VersionsOf(schemaVersions, id)
    {
      versions := VersionsOf(schemaVersions, id);
    }

    method GetPreviousVersion(id: string, current: string) returns (previous: Option<string>)
      requires Valid()
      ensures ComesBefore(VersionsOf(schemaVersions, id), current, previous)
    {
      var versions := ListVersions(id);
      forall a, b ensures Less(a, b) <==> Precedes(a, b) {
        LessIffPrecedes(a, b);
      }
      forall i, v | 0 <= i < |versions| && v in versions && Less(v, versions[i]) ensures v in versions[..i] {
        BelowIsBefore(versions, i, v);
      }
      if |versions| < 2 {
        return None;
      }
      for i := 0 to |versions|
        invariant current !in versions[1..][..if i == 0 then 0 else i - 1]
        invariant current in versions[..i] ==> versions[0] == current
      {
        if versions[i] == current && i > 0 {
          previous := Some(versions[i - 1]);
          forall v | v in versions && Less(v, current) ensures v == previous.value || Less(v, previous.value) {
            BelowIsBefore(versions, i, v);
          }
          return;
        }
      }
      previous := None;
    }

    /** Keeps the registration time of an entry it replaces. */
    method RegisterConsumer(entry: ConsumerEntry)
      modifies this`consumers
      ensures consumers == WithConsumer(old(consumers), entry)
      ensures var key := entry.consumerId + "/" + entry.schemaId + "/" + entry.environment;
        consumers == old(consumers)[key := entry.(registeredAt :=
          if key in old(consumers) then old(consumers)[key].registeredAt else entry.registeredAt)]
    {
      var key := ConsumerKey(entry.consumerId, entry.schemaId, entry.environment);
      if key in consumers {
        consumers := consumers[key := entry.(registeredAt := consumers[key].registeredAt)];
      } else {
        consumers := consumers[key := entry];
      }
    }

    method DeregisterConsumer(consumerId: string, schemaId: string, environment: string) returns (removed: bool)
      modifies this`consumers
      ensures removed <==> consumerId + "/" + schemaId + "/" + environment in old(consumers)
      ensures consumers == old(consumers) - {consumerId + "/" + schemaId + "/" + environment}
    {
      var key := ConsumerKey(consumerId, schemaId, environment);
      removed := key in consumers;
      consumers := consumers - {key};
    }

    /** The consumers of a schema, in whatever order the map yields them; an empty environment means all. */
    method ListConsumers(schemaId: string, environment: string) returns (result: seq<ConsumerEntry>)
      ensures forall c :: c in result <==> ListedFrom(consumers, consumers.Keys, schemaId, environment, c)
      ensures |result| == |ListedKeys(consumers, consumers.Keys, schemaId, environment)|
      ensures forall c :: c in result <==>
        c in consumers.Values && c.schemaId == schemaId && (environment == "" || c.environment == environment)
      ensures |result| == |set key | key in consumers && consumers[key].schemaId == schemaId
                                     && (environment == "" || consumers[key].environment == environment)|
    {
      result := [];
      var todo := consumers.Keys;
      while todo != {}
        invariant todo <= consumers.Keys
        invariant forall c :: c in result <==> ListedFrom(consumers, consumers.Keys - todo, schemaId, environment, c)
        invariant |result| == |ListedKeys(consumers, consumers.Keys - todo, schemaId, environment)|
      {
        ghost var done := consumers.Keys - todo;
        var key :| key in todo;
        todo := todo - {key};
        assert consumers.Keys - todo == done + {key};
        ListedKeysGrow(consumers, done, schemaId, environment, key);
        forall c ensures ListedFrom(consumers, done + {key}, schemaId, environment, c)
          <==> ListedFrom(consumers, done, schemaId, environment, c) || (c == consumers[key] && Matches(c, schemaId, environment))
        {
          ListedGrows(consumers, done, schemaId, environment, key, c);
        }
        if Matches(consumers[key], schemaId, environment) {
          result := result + [consumers[key]];
        }
      }
      assert consumers.Keys - todo == consumers.Keys;
      assert ListedKeys(consumers, consumers.Keys, schemaId, environment)
        == set key | key in consumers && consumers[key].schemaId == schemaId && (environment == "" || consumers[key].environment == environment);
    }
  }

  predicate Matches(c: ConsumerEntry, schemaId: string, environment: string) {
    c.schemaId == schemaId && (environment == "" || c.environment == environment)
  }

  function ListedKeys(consumers: map<string, ConsumerEntry>, keys: set<string>, schemaId: string, environment: string): set<string> {
    set key | key in keys && key in consumers && Matches(consumers[key], schemaId, environment)
  }

  /** c stands under one of keys and depends on the schema in that environment. */
  ghost predicate ListedFrom(consumers: map<string, ConsumerEntry>, keys: set<string>, schemaId: string, environment: string, c: ConsumerEntry) {
    exists key :: key in keys && key in consumers && consumers[key] == c && Matches(c, schemaId, environment)
  }

  lemma ListedGrows(consumers: map<string, ConsumerEntry>, keys: set<string>, schemaId: string, environment: string,
                    key: string, c: ConsumerEntry)
    requires key in consumers
    ensures ListedFrom(consumers, keys + {key}, schemaId, environment, c)
      <==> ListedFrom(consumers, keys, schemaId, environment, c) || (c == consumers[key] && Matches(c, schemaId, environment))
  {
    if k :| k in keys && k in consumers && consumers[k] == c && Matches(c, schemaId, environment) {
      assert k in keys + {key};
    }
    assert key in keys + {key};
  }

  lemma ListedKeysGrow(consumers: map<string, ConsumerEntry>, keys: set<string>, schemaId: string, environment: string, key: string)
    requires key in consumers && key !in keys
    ensures |ListedKeys(consumers, keys + {key}, schemaId, environment)|
      == |ListedKeys(consumers, keys, schemaId, environment)| + if Matches(consumers[key], schemaId, environment) then 1 else 0
  {
    assert ListedKeys(consumers, keys + {key}, schemaId, environment)
      == ListedKeys(consumers, keys, schemaId, environment) + if Matches(consumers[key], schemaId, environment) then {key} else {};
  }

  lemma BelowIsBefore(versions: seq<string>, i: nat, v: string)
    requires Ascending(versions) && i < |versions| && v in versions && Less(v, versions[i])
    ensures i > 0 && v in versions[..i] && (v == versions[i - 1] || Less(v, versions[i - 1]))
  {
    var j :| 0 <= j < |versions| && versions[j] == v;
    LessIsIrreflexive(v);
    if j > i {
      LessIsTransitive(v, versions[i], v);
    }
    assert j < i;
    assert versions[..i][j] == v;
  }

  lemma DeletedKeepsCover(ids: set<string>, entries: Entries, versions: Versions, id: string)
    requires forall key | key in entries :: Covered(ids, versions, key)
    ensures forall key | key in entries - ({id} + set v | v in VersionsOf(versions, id) :: VersionedKey(id, v)) ::
      Covered(ids, versions - {id}, key)
  {
    forall key | key in entries - ({id} + set v | v in VersionsOf(versions, id) :: VersionedKey(id, v))
      ensures Covered(ids, versions - {id}, key)
    {
      if key !in ids {
        var id', v :| id' in ids && v in VersionsOf(versions, id') && key == VersionedKey(id', v);
        assert id' != id;
        assert v in VersionsOf(versions - {id}, id');
      }
    }
  }

  lemma DeletedLeavesNone(ids: set<string>, entries: Entries, versions: Versions, id: string)
    requires forall key | key in entries :: Covered(ids, versions, key)
    requires (forall i | i in ids :: '@' !in i) && '@' !in id
    ensures var left := entries - ({id} + set v | v in VersionsOf(versions, id) :: VersionedKey(id, v));
      && (forall v :: id !in left && VersionedKey(id, v) !in left)
      && (forall id', v | id' != id && '@' !in id' ::
            && (id' in entries <==> id' in left)
            && (VersionedKey(id', v) in entries <==> VersionedKey(id', v) in left))
  {
    var gone := {id} + set v | v in VersionsOf(versions, id) :: VersionedKey(id, v);
    forall v ensures VersionedKey(id, v) in entries ==> VersionedKey(id, v) in gone {
      if VersionedKey(id, v) in entries {
        forall i | i in ids ensures VersionedKey(id, v) != i {
          VersionedKeyIsNotBare(id, v, i);
        }
        var id', v' :| id' in ids && v' in VersionsOf(versions, id') && VersionedKey(id, v) == VersionedKey(id', v');
        VersionedKeyIsInjective(id, v, id', v');
      }
    }
    forall id', v | id' != id && '@' !in id' ensures id' !in gone && VersionedKey(id', v) !in gone {
      VersionedKeyIsNotBare(id', v, id);
      forall v' | v' in VersionsOf(versions, id) ensures VersionedKey(id, v') != id' && VersionedKey(id, v') != VersionedKey(id', v) {
        VersionedKeyIsNotBare(id, v', id');
        if VersionedKey(id, v') == VersionedKey(id', v) {
          VersionedKeyIsInjective(id, v', id', v);
        }
      }
    }
  }
}
