/**
 The service over its shared cache and optional store. Its methods run the source's early-return
 protocols on those objects, and each is proved to do what the Registry function of that RPC says.
 */
module ValidatorService {
  import opened Prelude
  import opened OpenApi
  import opened Strings
  import opened BreakingChanges
  import opened Exactness
  import opened Versions
  import Engine = CompatibilityEngine
  import opened SchemaCache
  import opened MemoryStore
  import opened Registry
  import opened DeploymentSafety
  import opened ReportRules
  import Cap = ConsumerCap

  datatype ConsumerOutcome = ConsumerIdMissing | SchemaIdMissing | SchemaUnknown | CapReached | ConsumerRegistered

  /** NilMetadata: the call panics. */
  datatype Comparison = Comparison(compatible: bool, changes: seq<BreakingChange>) | NilMetadata

  class ValidatorService {
    const cache: SchemaCache
    const store: MemoryStore?
    const parse: Parser
    /** The content last mirrored into the fixture generator, by schema ID. */
    var generator: map<string, string>

    ghost predicate Valid()
      reads this, cache, store, if store == null then {} else store.Repr
    {
      cache.Valid() && (store != null ==> store.Valid())
    }

    /** The service as a Registry value. */
    ghost function State(): Registry
      reads this, cache, store
    {
      Registry(cache.entries, cache.schemaVersions, if store == null then None else Some(store.view), generator)
    }

    constructor (cache: SchemaCache, store: MemoryStore?, parse: Parser)
      requires cache.Valid() && (store != null ==> store.Valid())
      ensures Valid() && this.cache == cache && this.store == store && this.parse == parse && generator == map[]
    {
      this.cache, this.store, this.parse := cache, store, parse;
      generator := map[];
    }

    method TryFetchFromPlugin(id: string, version: string, fetch: Fetch) returns (fetched: Fetched)
      requires Valid()
      modifies this`generator, cache`entries, cache`schemaVersions, cache`ids
      ensures Valid() && State() == FromPlugin(old(State()), parse, id, version, fetch).0
      ensures fetched == FromPlugin(old(State()), parse, id, version, fetch).1
    {
      if fetch.Failed? {
        return Refused;
      }
      if fetch.Nothing? || fetch.content == "" {
        return Absent;
      }
      var doc := parse(fetch.content);
      if doc.None? {
        return Absent;
      }
      var resolved := if fetch.resolvedVersion == "" then doc.value.version else fetch.resolvedVersion;
      var entry := MakeEntry(fetch.content, doc.value, resolved);
      if version == "" {
        cache.Set(id, entry);
      } else {
        cache.SetVersion(id, version, entry);
        if resolved != "" && resolved != version {
          cache.SetVersion(id, resolved, entry);
        }
      }
      generator := generator[id := fetch.content];
      fetched := Found(entry);
    }

    /** What the store answers for a version, parsed again. */
    method Rehydrate(id: string, version: string) returns (entry: Option<SchemaEntry>)
      requires Valid() && store != null
      ensures entry == StoreOnly(store.view, parse, id, version)
    {
      var record: Option<SchemaRecord>;
      if version != "" {
        record := store.GetSchemaVersion(id, version);
      } else {
        record := store.GetSchema(id);
        if record.Some? {
          LatestVersionIs(store.view, id, record.value.version);
        }
      }
      if record.None? {
        return None;
      }
      var doc := parse(record.value.content);
      entry := if doc.None? then None else Some(MakeEntry(record.value.content, doc.value, record.value.version));
    }

    method GetSchemaEntry(id: string, version: string, fetch: Fetch) returns (entry: Option<SchemaEntry>)
      requires Valid()
      modifies this`generator, cache`entries, cache`schemaVersions, cache`ids
      ensures Valid() && State() == Lookup(old(State()), parse, id, version, fetch).0
      ensures entry == Lookup(old(State()), parse, id, version, fetch).1
    {
      entry := cache.GetVersion(id, version);
      if entry.Some? {
        return;
      }
      var fetched := TryFetchFromPlugin(id, version, fetch);
      if fetched.Found? {
        return Some(fetched.entry);
      }
      if fetched.Refused? || store == null {
        return None;
      }
      entry := Rehydrate(id, version);
      if entry.None? {
        return;
      }
      Refill(id, version, entry.value);
    }

    /** Repopulates the cache from the store; only an unpinned lookup may fill the bare key. */
    method Refill(id: string, version: string, entry: SchemaEntry)
      requires Valid() && entry.metadata.Some?
      modifies this`generator, cache`entries, cache`schemaVersions, cache`ids
      ensures Valid()
      ensures var s := if version == "" then CacheSet(old(State()), id, entry)
                       else CacheSetVersion(old(State()), id, entry.metadata.value.version, entry);
        State() == s.(generator := s.generator[id := entry.content])
    {
      if version == "" {
        cache.Set(id, entry);
      } else {
        cache.SetVersion(id, entry.metadata.value.version, entry);
      }
      generator := generator[id := entry.content];
    }

    method LookupPriorForCompat(id: string, fetch: Fetch) returns (prior: Prior)
      requires Valid()
      modifies this`generator, cache`entries, cache`schemaVersions, cache`ids
      ensures Valid() && State() == LookupPrior(old(State()), parse, id, fetch).0
      ensures prior == LookupPrior(old(State()), parse, id, fetch).1
    {
      var entry := cache.GetVersion(id, "");
      if entry.Some? {
        return Prior(entry.value);
      }
      var fetched := TryFetchFromPlugin(id, "", fetch);
      if fetched.Found? {
        return Prior(fetched.entry);
      }
      if fetched.Refused? {
        return LookupError;
      }
      if store == null {
        return NoPrior;
      }
      entry := Rehydrate(id, "");
      prior := if entry.Some? then Prior(entry.value) else LookupError;
    }

    /** Cache, generator and store, in that order. */
    method StoreSchema(request: RegisterRequest, entry: SchemaEntry, saved: bool, now: int)
      requires Valid() && Screened(parse, request).None?
      requires entry == MakeEntry(request.content, parse(request.content).value, parse(request.content).value.version)
      modifies this`generator, cache`entries, cache`schemaVersions, cache`ids
      modifies store, if store == null then {} else store.Repr
      ensures Valid() && State() == Commit(old(State()), parse, request, saved, now)
    {
      cache.Set(request.schemaId, entry);
      generator := generator[request.schemaId := request.content];
      if store != null && saved {
        var record := new SchemaRecord(request.schemaId, entry.metadata.value.version, request.content, now);
        store.SetSchema(record);
      }
    }

    /** changes are the engine's reports against the baseline the registration was checked with. */
    method RegisterSchema(request: RegisterRequest, fetch: Fetch, saved: bool, now: int)
      returns (outcome: Registration, changes: seq<BreakingChange>)
      requires Valid()
      modifies this`generator, cache`entries, cache`schemaVersions, cache`ids
      modifies store, if store == null then {} else store.Repr
      ensures Valid() && State() == Register(old(State()), parse, request, fetch, saved, now).0
      ensures outcome == Register(old(State()), parse, request, fetch, saved, now).1
      ensures outcome.Registered? && outcome.baseline.Some? ==>
        Engine.Complete(changes, outcome.baseline.value.document, outcome.entry.document)
      ensures !(outcome.Registered? && outcome.baseline.Some?) ==> changes == []
    {
      changes := [];
      if !ValidRequest(request) {
        return Rejected(InvalidRequest), [];
      }
      var doc := parse(request.content);
      if doc.None? {
        return Rejected(ParseError), [];
      }
      var version := doc.value.version;
      if version == "" {
        return Rejected(MissingVersion), [];
      }
      if request.schemaVersion != "" && request.schemaVersion != version {
        return Rejected(VersionMismatch), [];
      }
      var prior := NoPrior;
      if request.checkCompatibility {
        prior := LookupPriorForCompat(request.schemaId, fetch);
        if prior.LookupError? {
          return Rejected(CompatibilityLookupError), [];
        }
      }
      if prior.Prior? {
        var compatible;
        changes, compatible := Engine.CompareSchemas(prior.entry.document, doc.value);
      }
      var entry := MakeEntry(request.content, doc.value, version);
      StoreSchema(request, entry, saved, now);
      outcome := Registered(entry, if prior.Prior? then Some(prior.entry) else None, store != null && !saved);
    }

    /**
     RegisterConsumer, uninterrupted: for a known schema it is a check and an add of ConsumerCap. saved
     says whether the store takes the consumer; the call succeeds either way.
     */
    method RegisterConsumer(entry: ConsumerEntry, fetch: Fetch, saved: bool) returns (outcome: ConsumerOutcome)
      requires Valid()
      modifies this`generator, cache`entries, cache`schemaVersions, cache`ids, cache`consumers
      modifies if store == null then {} else {store}
      ensures Valid() && (store != null ==> unchanged(store`schemas, store`view, store`Repr))
      ensures outcome.ConsumerIdMissing? <==> entry.consumerId == ""
      ensures outcome.SchemaIdMissing? <==> entry.consumerId != "" && entry.schemaId == ""
      ensures State() == if outcome.ConsumerIdMissing? || outcome.SchemaIdMissing? then old(State())
                         else Lookup(old(State()), parse, entry.schemaId, "", fetch).0
      ensures outcome.SchemaUnknown? || outcome.CapReached? || outcome.ConsumerRegistered? ==>
        (outcome.SchemaUnknown? <==> Lookup(old(State()), parse, entry.schemaId, "", fetch).1.None?)
      ensures outcome.ConsumerRegistered? || outcome.CapReached? ==>
        && (outcome.CapReached? <==> |Cap.KeysOf(old(cache.consumers), entry.schemaId)| >= 10000)
        && cache.consumers == Cap.Run(Cap.State(old(cache.consumers), map[]), [Cap.Check(0, entry), Cap.Add(0)]).consumers
      ensures outcome.ConsumerRegistered? ==>
        var environment := if entry.environment == "" then "dev" else entry.environment;
        var key := entry.consumerId + "/" + entry.schemaId + "/" + environment;
        cache.consumers == old(cache.consumers)[key := entry.(environment := environment,
          registeredAt := if key in old(cache.consumers) then old(cache.consumers)[key].registeredAt else entry.registeredAt)]
      ensures !outcome.ConsumerRegistered? ==> cache.consumers == old(cache.consumers)
      ensures store != null && !(outcome.ConsumerRegistered? && saved) ==> store.consumers == old(store.consumers)
      ensures store != null && outcome.ConsumerRegistered? && saved ==>
        store.consumers == WithConsumer(old(store.consumers), entry.(environment := Cap.Normalized(entry.environment)))
      ensures store != null && old(store.consumers) == old(cache.consumers) && (outcome.ConsumerRegistered? ==> saved) ==>
        store.consumers == cache.consumers
    {
      if entry.consumerId == "" {
        return ConsumerIdMissing;
      }
      if entry.schemaId == "" {
        return SchemaIdMissing;
      }
      var environment := if entry.environment == "" then "dev" else entry.environment;
      var known := GetSchemaEntry(entry.schemaId, "", fetch);
      if known.None? {
        return SchemaUnknown;
      }
      var existing := cache.ListConsumers(entry.schemaId, "");
      ghost var before := Cap.State(cache.consumers, map[]);
      Cap.ConsumersAreKeys(before, entry.schemaId);
      Cap.LoneCallRegisters(before, 0, entry);
      if |existing| >= Cap.MAX_CONSUMERS_PER_SCHEMA {
        return CapReached;
      }
      cache.RegisterConsumer(entry.(environment := environment));
      if store != null && saved {
        store.RegisterConsumer(entry.(environment := environment));
      }
      outcome := ConsumerRegistered;
    }

    /** One consumer of the deployment check; pinned is what its own version resolved to. */
    method AssessConsumer(consumer: ConsumerEntry, id: string, newVersion: string, newDoc: Document, fetch: Fetch)
      returns (impact: Impact, ghost pinned: Option<SchemaEntry>)
      requires Valid()
      modifies this`generator, cache`entries, cache`schemaVersions, cache`ids
      ensures Valid() && AssessedAs(impact, consumer, newVersion, newDoc, pinned)
      ensures (State(), pinned) == LookupIf(consumer.schemaVersion != "" && consumer.schemaVersion != newVersion,
                                            old(State()), parse, id, consumer.schemaVersion, fetch)
    {
      pinned := None;
      if consumer.schemaVersion == "" || consumer.schemaVersion == newVersion {
        return Impact(consumer.consumerId, consumer.schemaVersion, false, []), pinned;
      }
      var oldEntry := GetSchemaEntry(id, consumer.schemaVersion, fetch);
      pinned := oldEntry;
      if oldEntry.None? {
        return Impact(consumer.consumerId, consumer.schemaVersion, true, []), pinned;
      }
      var changes, _ := Engine.CompareSchemas(oldEntry.value.document, newDoc);
      var relevant := FilterChangesForConsumer(changes, consumer.usedEndpoints);
      impact := Impact(consumer.consumerId, consumer.schemaVersion, |relevant| > 0, relevant);
      assert ComparisonGave(impact, consumer, newDoc, oldEntry.value.document, changes);
    }

    /** The consumers of the schema, one by one; allSafe is whether none of them breaks. */
    method AssessConsumers(consumers: seq<ConsumerEntry>, id: string, newVersion: string, newDoc: Document, plugin: Plugin)
      returns (impacts: seq<Impact>, allSafe: bool, breaking: seq<BreakingChange>, ghost pinned: seq<Option<SchemaEntry>>)
      requires Valid()
      modifies this`generator, cache`entries, cache`schemaVersions, cache`ids
      ensures Valid() && AllAssessed(impacts, consumers, newVersion, newDoc, pinned)
      ensures allSafe <==> forall i | 0 <= i < |impacts| :: !impacts[i].willBreak
      ensures breaking == Gathered(impacts)
      ensures (State(), pinned) == LookupAll(old(State()), parse, id, newVersion, consumers, plugin)
    {
      impacts, allSafe, breaking, pinned := [], true, [], [];
      for n := 0 to |consumers|
        invariant Valid() && AllAssessed(impacts, consumers[..n], newVersion, newDoc, pinned)
        invariant allSafe == NoneBreaks(impacts)
        invariant breaking == Gathered(impacts)
        invariant (State(), pinned) == LookupAll(old(State()), parse, id, newVersion, consumers[..n], plugin)
      {
        ghost var before := State();
        var impact, oldEntry := AssessConsumer(consumers[n], id, newVersion, newDoc, plugin(FIRST_CONSUMER + n));
        OneMoreLookedUp(old(State()), parse, id, newVersion, consumers, plugin, n, before, pinned, State(), oldEntry);
        if impact.willBreak {
          allSafe := false;
          breaking := breaking + impact.relevant;
        }
        OneMoreAssessed(impacts, impact, consumers, n, newVersion, newDoc, pinned, oldEntry);
        assert (impacts + [impact])[..n] == impacts;
        impacts, pinned := impacts + [impact], pinned + [oldEntry];
      }
      assert consumers[..|consumers|] == consumers;
      NoneBreaksIff(impacts);
    }

    /** The latest entry must exist; the new version falls back to it. */
    method ResolveDeployment(id: string, newVersion: string, plugin: Plugin) returns (newEntry: Result<SchemaEntry, Verdict>)
      requires Valid()
      modifies this`generator, cache`entries, cache`schemaVersions, cache`ids
      ensures Valid() && (State(), newEntry) == Resolution(old(State()), parse, id, newVersion, plugin)
    {
      var latest := GetSchemaEntry(id, "", plugin(0));
      if latest.None? {
        return Err(SchemaNotFound);
      }
      var entry := GetSchemaEntry(id, newVersion, plugin(1));
      if entry.None? {
        entry := GetSchemaEntry(id, "", plugin(2));
        if entry.None? {
          return Err(VersionNotFound);
        }
      }
      newEntry := Ok(entry.value);
    }

    /** CanIDeploy, under any answers of a plugin; deployed is the entry the new version resolved to. */
    method CanIDeploy(id: string, newVersion: string, environment: string, plugin: Plugin)
      returns (verdict: Verdict, ghost consumers: seq<ConsumerEntry>, ghost deployed: Option<SchemaEntry>, ghost pinned: seq<Option<SchemaEntry>>)
      requires Valid()
      modifies this`generator, cache`entries, cache`schemaVersions, cache`ids
      ensures Valid() && State().store == old(State()).store
      ensures verdict.MissingSchemaId? <==> id == ""
      ensures verdict.SchemaNotFound? <==> id != "" && Lookup(old(State()), parse, id, "", plugin(0)).1.None?
      ensures !verdict.VersionNotFound?
      ensures verdict.NoConsumers? || verdict.Assessed? ==> forall c :: c in consumers <==>
        c in cache.consumers.Values && c.schemaId == id && c.environment == (if environment == "" then "prod" else environment)
      ensures verdict.NoConsumers? ==> consumers == []
      ensures verdict.SafeToDeploy() <==>
        verdict.NoConsumers? || (verdict.Assessed? && forall i | 0 <= i < |verdict.impacts| :: !verdict.impacts[i].willBreak)
      ensures verdict.Assessed? ==>
        && consumers != [] && deployed.Some?
        && Assessment(verdict, consumers, newVersion, deployed.value.document, pinned)
        && (forall c :: c in verdict.breakingChanges <==> exists i :: 0 <= i < |consumers| && c in verdict.impacts[i].relevant)
        && var (s, resolved) := Resolution(old(State()), parse, id, newVersion, plugin);
        && resolved == Ok(deployed.value)
        && (State(), pinned) == LookupAll(s, parse, id, newVersion, consumers, plugin)
      ensures old(Coherent(State(), parse)) && '@' !in id && Unplugged(plugin) ==>
        && Coherent(State(), parse)
        && (verdict.Assessed? ==>
              && deployed == DeployedEntry(old(State()).store.value, parse, id, newVersion)
              && ResolvedByStore(consumers, newVersion, old(State()), parse, id, pinned))
    {
      consumers, deployed, pinned := [], None, [];
      if id == "" {
        return MissingSchemaId, consumers, deployed, pinned;
      }
      ghost var start := State();
      verdict, consumers, deployed, pinned := Gate(id, newVersion, if environment == "" then "prod" else environment, plugin);
      ResolutionFinds(start, parse, id, newVersion, plugin);
      RanAnswers(start, State(), parse, id, newVersion, plugin, verdict, consumers, deployed, pinned);
    }

    /** The rest of it, for an ID and an environment that are given. */
    method Gate(id: string, newVersion: string, target: string, plugin: Plugin)
      returns (verdict: Verdict, ghost consumers: seq<ConsumerEntry>, ghost deployed: Option<SchemaEntry>, ghost pinned: seq<Option<SchemaEntry>>)
      requires Valid() && target != ""
      modifies this`generator, cache`entries, cache`schemaVersions, cache`ids
      ensures Valid() && Ran(old(State()), State(), parse, id, newVersion, plugin, verdict, consumers, deployed, pinned)
      ensures verdict.NoConsumers? || verdict.Assessed? ==>
        forall c :: c in consumers <==> c in cache.consumers.Values && c.schemaId == id && c.environment == target
      ensures verdict.NoConsumers? ==> consumers == []
      ensures verdict.Assessed? ==>
        && consumers != [] && deployed.Some?
        && Assessment(verdict, consumers, newVersion, deployed.value.document, pinned)
        && (forall c :: c in verdict.breakingChanges <==> exists i :: 0 <= i < |consumers| && c in verdict.impacts[i].relevant)
    {
      consumers, deployed, pinned := [], None, [];
      var newEntry := ResolveDeployment(id, newVersion, plugin);
      if newEntry.Err? {
        return newEntry.error, consumers, deployed, pinned;
      }
      deployed := Some(newEntry.value);
      var listed := cache.ListConsumers(id, target);
      consumers := listed;
      if |listed| == 0 {
        return NoConsumers, consumers, deployed, pinned;
      }
      var impacts, allSafe, breaking;
      impacts, allSafe, breaking, pinned := AssessConsumers(listed, id, newVersion, newEntry.value.document, plugin);
      GatheredHolds(impacts);
      verdict := Assessed(allSafe, impacts, breaking);
    }

    /** The version a comparison starts from when none is given: the one before the latest. */
    method PreviousOfLatest(id: string, fetch: Fetch) returns (previous: string)
      requires Valid()
      modifies this`generator, cache`entries, cache`schemaVersions, cache`ids
      ensures Valid() && State() == Lookup(old(State()), parse, id, "", fetch).0
      ensures StartsFrom(cache.schemaVersions, id, Lookup(old(State()), parse, id, "", fetch).1, previous)
    {
      var entry := GetSchemaEntry(id, "", fetch);
      if entry.None? || entry.value.metadata.None? {
        return "";
      }
      var found := cache.GetPreviousVersion(id, entry.value.metadata.value.version);
      previous := if found.Some? then found.value else "";
    }

    /**
     The CompareSchemas RPC, under any answers of a plugin. before and after are the entries compared,
     found under oldV and newV.
     */
    method CompareSchemas(id: string, oldVersion: string, newVersion: string, plugin: Plugin)
      returns (outcome: Comparison, ghost oldV: string, ghost newV: string, ghost before: Option<SchemaEntry>, ghost after: Option<SchemaEntry>)
      requires Valid()
      modifies this`generator, cache`entries, cache`schemaVersions, cache`ids
      ensures Valid() && ComparedAs(outcome, before, after)
      ensures id == "" ==> State() == old(State()) && before == after == None
      ensures id != "" ==> LookedUp(old(State()), State(), parse, id, oldVersion, newVersion, plugin, oldV, newV, before, after)
    {
      oldV, newV, before, after := oldVersion, newVersion, None, None;
      if id == "" {
        return Comparison(true, []), oldV, newV, before, after;
      }
      var start, end := oldVersion, newVersion;
      if start == "" {
        start := PreviousOfLatest(id, plugin(0));
      }
      if end == "" {
        var entry := GetSchemaEntry(id, "", plugin(1));
        end := VersionOf(entry);
      }
      var oldEntry, newEntry: Option<SchemaEntry> := None, None;
      if start != "" {
        oldEntry := GetSchemaEntry(id, start, plugin(2));
      }
      if end != "" {
        newEntry := GetSchemaEntry(id, end, plugin(3));
      }
      oldV, newV, before, after := start, end, oldEntry, newEntry;
      if oldEntry.None? || newEntry.None? {
        return Comparison(true, []), oldV, newV, before, after;
      }
      outcome := CompareEntries(oldEntry.value, newEntry.value);
    }

    /** Nil metadata is dereferenced unchecked, which ends the call. */
    method CompareEntries(before: SchemaEntry, after: SchemaEntry) returns (outcome: Comparison)
      ensures ComparedAs(outcome, Some(before), Some(after))
    {
      if before.metadata.None? || after.metadata.None? {
        return NilMetadata;
      }
      if before.metadata.value.hash == after.metadata.value.hash {
        return Comparison(true, []);
      }
      var changes, compatible := Engine.CompareSchemas(before.document, after.document);
      outcome := Comparison(compatible, changes);
    }
  }

  // ---- The lookups of one RPC -------------------------------------------------------------

  /** The answers of the fetch plugin during one RPC, by the lookup asking. */
  type Plugin = nat -> Fetch

  /** CanIDeploy's lookups before the first consumer's. */
  const FIRST_CONSUMER: nat := 3

  ghost predicate Unplugged(plugin: Plugin) {
    forall i :: plugin(i) == Nothing
  }

  ghost function LookupIf(asked: bool, s: Registry, parse: Parser, id: string, version: string, fetch: Fetch): (Registry, Option<SchemaEntry>) {
    if asked then Lookup(s, parse, id, version, fetch) else (s, None)
  }

  /** The latest entry, the new version's, and the latest again in its place. */
  ghost function Resolution(s: Registry, parse: Parser, id: string, newVersion: string, plugin: Plugin): (Registry, Result<SchemaEntry, Verdict>) {
    var (s1, latest) := Lookup(s, parse, id, "", plugin(0));
    if latest.None? then (s1, Err(SchemaNotFound)) else
      var (s2, entry) := Lookup(s1, parse, id, newVersion, plugin(1));
      if entry.Some? then (s2, Ok(entry.value)) else
        var (s3, again) := Lookup(s2, parse, id, "", plugin(2));
        (s3, if again.Some? then Ok(again.value) else Err(VersionNotFound))
  }

  /** What the consumers' own versions resolve to, looked up one after the other. */
  ghost function LookupAll(s: Registry, parse: Parser, id: string, newVersion: string, consumers: seq<ConsumerEntry>, plugin: Plugin)
    : (Registry, seq<Option<SchemaEntry>>)
  {
    if consumers == [] then (s, []) else
      var n := |consumers| - 1;
      var (s', pinned) := LookupAll(s, parse, id, newVersion, consumers[..n], plugin);
      var (s'', entry) := LookupIf(consumers[n].schemaVersion != "" && consumers[n].schemaVersion != newVersion,
                                   s', parse, id, consumers[n].schemaVersion, plugin(FIRST_CONSUMER + n));
      (s'', pinned + [entry])
  }

  lemma OneMoreLookedUp(s: Registry, parse: Parser, id: string, newVersion: string, consumers: seq<ConsumerEntry>, plugin: Plugin, n: nat,
                        before: Registry, pinned: seq<Option<SchemaEntry>>, after: Registry, entry: Option<SchemaEntry>)
    requires n < |consumers| && (before, pinned) == LookupAll(s, parse, id, newVersion, consumers[..n], plugin)
    requires (after, entry) == LookupIf(consumers[n].schemaVersion != "" && consumers[n].schemaVersion != newVersion,
                                        before, parse, id, consumers[n].schemaVersion, plugin(FIRST_CONSUMER + n))
    ensures (after, pinned + [entry]) == LookupAll(s, parse, id, newVersion, consumers[..n + 1], plugin)
  {
    assert consumers[..n + 1][..n] == consumers[..n];
  }

  /** The breaking changes of a verdict, consumer by consumer. */
  function Gathered(impacts: seq<Impact>): seq<BreakingChange> {
    if impacts == [] then [] else
      var last := impacts[|impacts| - 1];
      Gathered(impacts[..|impacts| - 1]) + if last.willBreak then last.relevant else []
  }

  predicate NoneBreaks(impacts: seq<Impact>) {
    impacts == [] || (NoneBreaks(impacts[..|impacts| - 1]) && !impacts[|impacts| - 1].willBreak)
  }

  lemma {:induction false} NoneBreaksIff(impacts: seq<Impact>)
    ensures NoneBreaks(impacts) <==> forall i | 0 <= i < |impacts| :: !impacts[i].willBreak
  {
    if impacts != [] {
      var before := impacts[..|impacts| - 1];
      NoneBreaksIff(before);
      assert forall i | 0 <= i < |before| :: before[i] == impacts[i];
    }
  }

  lemma {:induction false} GatheredHolds(impacts: seq<Impact>)
    ensures forall c :: c in Gathered(impacts) <==> exists i :: 0 <= i < |impacts| && impacts[i].willBreak && c in impacts[i].relevant
  {
    if impacts != [] {
      var n := |impacts| - 1;
      GatheredHolds(impacts[..n]);
      forall c | c in Gathered(impacts) ensures exists i :: 0 <= i < |impacts| && impacts[i].willBreak && c in impacts[i].relevant {
        if c in Gathered(impacts[..n]) {
          var i :| 0 <= i < n && impacts[..n][i].willBreak && c in impacts[..n][i].relevant;
          assert impacts[i].willBreak && c in impacts[i].relevant;
        }
      }
      forall c, i | 0 <= i < |impacts| && impacts[i].willBreak && c in impacts[i].relevant ensures c in Gathered(impacts) {
        if i < n {
          assert impacts[..n][i].willBreak && c in impacts[..n][i].relevant;
        }
      }
    }
  }

  /** A schema found once is found again: only an unknown ID is refused, and its first lookup decides. */
  lemma ResolutionFinds(s: Registry, parse: Parser, id: string, newVersion: string, plugin: Plugin)
    ensures var (s', entry) := Resolution(s, parse, id, newVersion, plugin);
      && s'.store == s.store
      && (entry.Err? <==> Lookup(s, parse, id, "", plugin(0)).1.None?)
      && (entry.Err? ==> entry.error == SchemaNotFound)
      && var (s1, latest) := Lookup(s, parse, id, "", plugin(0));
      var asked := Lookup(s1, parse, id, newVersion, plugin(1)).1;
      (latest.Some? ==> entry == Ok(if asked.Some? then asked.value else latest.value))
  {
    var (s1, latest) := Lookup(s, parse, id, "", plugin(0));
    LookupsKeepKeys(s, parse, id, "", plugin(0));
    if latest.Some? {
      var (s2, entry) := Lookup(s1, parse, id, newVersion, plugin(1));
      LookupsKeepKeys(s1, parse, id, newVersion, plugin(1));
      assert id in s2.entries;
    }
  }

  lemma ResolutionRefinesStore(s: Registry, parse: Parser, id: string, newVersion: string, plugin: Plugin)
    requires Coherent(s, parse) && '@' !in id && Unplugged(plugin)
    ensures var (s', entry) := Resolution(s, parse, id, newVersion, plugin);
      && Coherent(s', parse) && s'.store == s.store
      && (entry.Ok? ==> Some(entry.value) == DeployedEntry(s.store.value, parse, id, newVersion))
  {
    LookupRefinesStore(s, parse, id, "");
    var (s1, latest) := Lookup(s, parse, id, "", plugin(0));
    if latest.Some? {
      LookupRefinesStore(s1, parse, id, newVersion);
      LookupRefinesStore(Lookup(s1, parse, id, newVersion, plugin(1)).0, parse, id, "");
    }
  }

  lemma {:induction false} LookupAllKeepsStore(s: Registry, parse: Parser, id: string, newVersion: string, consumers: seq<ConsumerEntry>, plugin: Plugin)
    ensures var (s', pinned) := LookupAll(s, parse, id, newVersion, consumers, plugin);
      s'.store == s.store && |pinned| == |consumers|
  {
    if consumers != [] {
      LookupAllKeepsStore(s, parse, id, newVersion, consumers[..|consumers| - 1], plugin);
    }
  }

  /** With no plugin bound, every consumer is judged against what the store holds for its version. */
  lemma {:induction false} LookupAllRefinesStore(s: Registry, parse: Parser, id: string, newVersion: string, consumers: seq<ConsumerEntry>, plugin: Plugin)
    requires Coherent(s, parse) && '@' !in id && Unplugged(plugin)
    ensures var (s', pinned) := LookupAll(s, parse, id, newVersion, consumers, plugin);
      && Coherent(s', parse) && s'.store == s.store
      && ResolvedByStore(consumers, newVersion, s, parse, id, pinned)
  {
    if consumers != [] {
      var n := |consumers| - 1;
      var (before, pinned) := LookupAll(s, parse, id, newVersion, consumers[..n], plugin);
      LookupAllRefinesStore(s, parse, id, newVersion, consumers[..n], plugin);
      var asked := consumers[n].schemaVersion != "" && consumers[n].schemaVersion != newVersion;
      LookupIfRefinesStore(asked, before, parse, id, consumers[n].schemaVersion, plugin(FIRST_CONSUMER + n));
      OneMoreResolved(consumers, n, newVersion, s, parse, id, pinned,
                      LookupIf(asked, before, parse, id, consumers[n].schemaVersion, plugin(FIRST_CONSUMER + n)).1);
    }
  }

  lemma LookupIfRefinesStore(asked: bool, s: Registry, parse: Parser, id: string, version: string, fetch: Fetch)
    requires Coherent(s, parse) && '@' !in id && fetch == Nothing
    ensures var (s', entry) := LookupIf(asked, s, parse, id, version, fetch);
      Coherent(s', parse) && s'.store == s.store && (asked ==> entry == StoreOnly(s.store.value, parse, id, version))
  {
    LookupRefinesStore(s, parse, id, version);
  }

  lemma OneMoreResolved(consumers: seq<ConsumerEntry>, n: nat, newVersion: string, s: Registry, parse: Parser, id: string,
                        pinned: seq<Option<SchemaEntry>>, entry: Option<SchemaEntry>)
    requires s.store.Some? && |consumers| == n + 1 && ResolvedByStore(consumers[..n], newVersion, s, parse, id, pinned)
    requires consumers[n].schemaVersion != "" && consumers[n].schemaVersion != newVersion ==>
      entry == StoreOnly(s.store.value, parse, id, consumers[n].schemaVersion)
    ensures ResolvedByStore(consumers, newVersion, s, parse, id, pinned + [entry])
  {
    forall i | 0 <= i < n && consumers[i].schemaVersion != "" && consumers[i].schemaVersion != newVersion
      ensures pinned[i] == StoreOnly(s.store.value, parse, id, consumers[i].schemaVersion)
    {
      assert consumers[..n][i] == consumers[i];
    }
  }

  /** The two together, for a registry that agreed with its store before the first lookup. */
  lemma ResolutionAnswers(start: Registry, parse: Parser, id: string, newVersion: string, plugin: Plugin)
    ensures var (s, entry) := Resolution(start, parse, id, newVersion, plugin);
      Coherent(start, parse) && '@' !in id && Unplugged(plugin) ==>
        Coherent(s, parse) && s.store == start.store
        && (entry.Ok? ==> Some(entry.value) == DeployedEntry(start.store.value, parse, id, newVersion))
  {
    if Coherent(start, parse) && '@' !in id && Unplugged(plugin) {
      ResolutionRefinesStore(start, parse, id, newVersion, plugin);
    }
  }

  lemma LookupAllAnswers(start: Registry, s: Registry, parse: Parser, id: string, newVersion: string, consumers: seq<ConsumerEntry>, plugin: Plugin)
    requires Coherent(start, parse) && '@' !in id && Unplugged(plugin) ==> Coherent(s, parse) && s.store == start.store
    ensures var (s', pinned) := LookupAll(s, parse, id, newVersion, consumers, plugin);
      Coherent(start, parse) && '@' !in id && Unplugged(plugin) ==>
        Coherent(s', parse) && ResolvedByStore(consumers, newVersion, start, parse, id, pinned)
  {
    if Coherent(start, parse) && '@' !in id && Unplugged(plugin) {
      LookupAllRefinesStore(s, parse, id, newVersion, consumers, plugin);
    }
  }

  /** The lookups behind a verdict: those of the resolution, which an error comes from, and of each consumer assessed. */
  ghost predicate Ran(start: Registry, end: Registry, parse: Parser, id: string, newVersion: string, plugin: Plugin, verdict: Verdict,
                      consumers: seq<ConsumerEntry>, deployed: Option<SchemaEntry>, pinned: seq<Option<SchemaEntry>>)
  {
    var (s, resolved) := Resolution(start, parse, id, newVersion, plugin);
    if resolved.Err? then verdict == resolved.error && end == s
    else
      && deployed == Some(resolved.value)
      && if verdict.Assessed? then (end, pinned) == LookupAll(s, parse, id, newVersion, consumers, plugin)
         else verdict.NoConsumers? && end == s
  }

  lemma RanAnswers(start: Registry, end: Registry, parse: Parser, id: string, newVersion: string, plugin: Plugin, verdict: Verdict,
                   consumers: seq<ConsumerEntry>, deployed: Option<SchemaEntry>, pinned: seq<Option<SchemaEntry>>)
    requires Ran(start, end, parse, id, newVersion, plugin, verdict, consumers, deployed, pinned)
    ensures end.store == start.store
    ensures Coherent(start, parse) && '@' !in id && Unplugged(plugin) ==>
      && Coherent(end, parse)
      && (verdict.Assessed? ==>
            && deployed == DeployedEntry(start.store.value, parse, id, newVersion)
            && ResolvedByStore(consumers, newVersion, start, parse, id, pinned))
  {
    var s := Resolution(start, parse, id, newVersion, plugin).0;
    ResolutionFinds(start, parse, id, newVersion, plugin);
    ResolutionAnswers(start, parse, id, newVersion, plugin);
    LookupAllKeepsStore(s, parse, id, newVersion, consumers, plugin);
    LookupAllAnswers(start, s, parse, id, newVersion, consumers, plugin);
  }

  /** A comparison's lookups: the versions not given, then both entries; its only effects are theirs. */
  ghost predicate LookedUp(s: Registry, s': Registry, parse: Parser, id: string, oldVersion: string, newVersion: string, plugin: Plugin,
                           oldV: string, newV: string, before: Option<SchemaEntry>, after: Option<SchemaEntry>)
  {
    var (s1, latest) := LookupIf(oldVersion == "", s, parse, id, "", plugin(0));
    var (s2, latest') := LookupIf(newVersion == "", s1, parse, id, "", plugin(1));
    var (s3, b) := LookupIf(oldV != "", s2, parse, id, oldV, plugin(2));
    && (s', after) == LookupIf(newV != "", s3, parse, id, newV, plugin(3)) && before == b
    && (if oldVersion == "" then StartsFrom(s1.versions, id, latest, oldV) else oldV == oldVersion)
    && newV == (if newVersion != "" then newVersion else VersionOf(latest'))
  }

  /** A version that is not found counts as compatible, and so do equal hashes; all else is up to the engine. */
  ghost predicate ComparedAs(outcome: Comparison, before: Option<SchemaEntry>, after: Option<SchemaEntry>) {
    if before.None? || after.None? then outcome == Comparison(true, [])
    else if before.value.metadata.None? || after.value.metadata.None? then outcome == NilMetadata
    else
      && outcome.Comparison? && (outcome.compatible <==> outcome.changes == [])
      && if before.value.metadata.value.hash == after.value.metadata.value.hash then outcome.compatible
         else Engine.Complete(outcome.changes, before.value.document, after.value.document)
  }

  /**
   While the cache holds genuine entries only, the RPC never panics and keeps it so; and however its two
   documents came to be found, it calls them compatible exactly when no change is due between them.
   */
  lemma ComparisonIsRight(s: Registry, s': Registry, parse: Parser, id: string, oldVersion: string, newVersion: string, plugin: Plugin,
                          oldV: string, newV: string, before: Option<SchemaEntry>, after: Option<SchemaEntry>, outcome: Comparison)
    requires LookedUp(s, s', parse, id, oldVersion, newVersion, plugin, oldV, newV, before, after)
    requires ComparedAs(outcome, before, after) && AllGenuine(parse, s.entries)
    ensures AllGenuine(parse, s'.entries) && outcome.Comparison?
    ensures WhitespaceBlind(parse) && before.Some? && after.Some?
      && UniquelyNamed(before.value.document) && Undisputed(before.value.document)
      ==> (outcome.compatible <==> forall c, place :: !Due(before.value.document, after.value.document, c, place))
    ensures before.None? || after.None? ==> outcome == Comparison(true, [])
  {
    LookedUpIsGenuine(s, s', parse, id, oldVersion, newVersion, plugin, oldV, newV, before, after);
    if before.Some? && after.Some? {
      HashesDecide(parse, before.value, after.value, outcome);
      UndisputedAgree(before.value.document);
      CompatibleIffNoneDue(before.value.document, after.value.document);
    }
  }

  lemma HashesDecide(parse: Parser, before: SchemaEntry, after: SchemaEntry, outcome: Comparison)
    requires ComparedAs(outcome, Some(before), Some(after)) && Genuine(parse, before) && Genuine(parse, after)
    ensures WhitespaceBlind(parse) && UniquelyNamed(before.document) && AgreeingMedia(before.document)
      ==> (outcome.compatible <==> Compatible(before.document, after.document))
  {
    if WhitespaceBlind(parse) && UniquelyNamed(before.document) && AgreeingMedia(before.document) {
      if before.metadata.value.hash == after.metadata.value.hash {
        HashesDecideDocuments(parse, before, after);
        EqualDocumentsAreCompatible(before.document);
      } else {
        Engine.CompatibleIsSilent(outcome.changes, before.document, after.document);
      }
    }
  }

  lemma LookedUpIsGenuine(s: Registry, s': Registry, parse: Parser, id: string, oldVersion: string, newVersion: string, plugin: Plugin,
                          oldV: string, newV: string, before: Option<SchemaEntry>, after: Option<SchemaEntry>)
    requires LookedUp(s, s', parse, id, oldVersion, newVersion, plugin, oldV, newV, before, after)
    requires AllGenuine(parse, s.entries)
    ensures AllGenuine(parse, s'.entries)
    ensures (before.Some? ==> Genuine(parse, before.value)) && (after.Some? ==> Genuine(parse, after.value))
  {
    var s1 := LookupIf(oldVersion == "", s, parse, id, "", plugin(0)).0;
    LookupIfKeepsGenuine(oldVersion == "", s, parse, id, "", plugin(0));
    var s2 := LookupIf(newVersion == "", s1, parse, id, "", plugin(1)).0;
    LookupIfKeepsGenuine(newVersion == "", s1, parse, id, "", plugin(1));
    var s3 := LookupIf(oldV != "", s2, parse, id, oldV, plugin(2)).0;
    LookupIfKeepsGenuine(oldV != "", s2, parse, id, oldV, plugin(2));
    LookupIfKeepsGenuine(newV != "", s3, parse, id, newV, plugin(3));
  }

  /** With no plugin bound, the entries compared are the store's, and an omitted new version is its latest. */
  lemma ComparisonIsOfTheStore(s: Registry, s': Registry, parse: Parser, id: string, oldVersion: string, newVersion: string, plugin: Plugin,
                               oldV: string, newV: string, before: Option<SchemaEntry>, after: Option<SchemaEntry>)
    requires LookedUp(s, s', parse, id, oldVersion, newVersion, plugin, oldV, newV, before, after)
    requires Coherent(s, parse) && '@' !in id && Unplugged(plugin)
    ensures Coherent(s', parse) && s'.store == s.store
    ensures before == if oldV == "" then None else StoreOnly(s.store.value, parse, id, oldV)
    ensures after == if newV == "" then None else StoreOnly(s.store.value, parse, id, newV)
    ensures newVersion != "" ==> newV == newVersion
    ensures newVersion == "" ==>
      var latest := StoreOnly(s.store.value, parse, id, "");
      newV == if latest.Some? then latest.value.metadata.value.version else ""
    ensures oldVersion != "" ==> oldV == oldVersion
    ensures oldVersion == "" ==>
      var latest := StoreOnly(s.store.value, parse, id, "");
      var tracked := VersionsOf(Lookup(s, parse, id, "", Nothing).0.versions, id);
      if latest.Some? then RightBefore(tracked, latest.value.metadata.value.version, oldV) else oldV == ""
  {
    assert plugin(0) == Nothing;
    LookupRefinesStore(s, parse, id, "");
    var s1 := LookupIf(oldVersion == "", s, parse, id, "", plugin(0)).0;
    LookupRefinesStore(s1, parse, id, "");
    var s2 := LookupIf(newVersion == "", s1, parse, id, "", plugin(1)).0;
    LookupRefinesStore(s2, parse, id, oldV);
    var s3 := LookupIf(oldV != "", s2, parse, id, oldV, plugin(2)).0;
    LookupRefinesStore(s3, parse, id, newV);
  }

  lemma LookupIfKeepsGenuine(asked: bool, s: Registry, parse: Parser, id: string, version: string, fetch: Fetch)
    requires AllGenuine(parse, s.entries)
    ensures var (s', entry) := LookupIf(asked, s, parse, id, version, fetch);
      AllGenuine(parse, s'.entries) && (entry.Some? ==> Genuine(parse, entry.value))
  {
    LookupKeepsGenuine(s, parse, id, version, fetch);
  }

  function VersionOf(entry: Option<SchemaEntry>): string {
    if entry.Some? && entry.value.metadata.Some? then entry.value.metadata.value.version else ""
  }

  /** version is the greatest tracked one before current, in string order, where current is tracked and has one before it; else it is "". */
  ghost predicate RightBefore(tracked: seq<string>, current: string, version: string) {
    if current in tracked && exists v :: v in tracked && Precedes(v, current) then
      && version in tracked && Precedes(version, current)
      && forall v | v in tracked && Precedes(v, current) :: v == version || Precedes(v, version)
    else version == ""
  }

  /** version is the tracked one right before the latest entry's, or "" where there is none. */
  ghost predicate StartsFrom(versions: map<string, seq<string>>, id: string, latest: Option<SchemaEntry>, version: string) {
    if latest.Some? && latest.value.metadata.Some?
    then exists previous :: ComesBefore(VersionsOf(versions, id), latest.value.metadata.value.version, previous)
                            && version == if previous.Some? then previous.value else ""
    else version == ""
  }

  /** The entry a deployment is checked against: the new version, or the latest when that is unknown. */
  ghost function DeployedEntry(view: StoreView, parse: Parser, id: string, newVersion: string): Option<SchemaEntry> {
    var entry := StoreOnly(view, parse, id, newVersion);
    if entry.Some? then entry else StoreOnly(view, parse, id, "")
  }

  /** Every compared consumer's own version resolved to what the store holds for it. */
  ghost predicate ResolvedByStore(consumers: seq<ConsumerEntry>, newVersion: string, s: Registry, parse: Parser, id: string,
                                  pinned: seq<Option<SchemaEntry>>)
    requires s.store.Some?
  {
    && |pinned| == |consumers|
    && forall i | 0 <= i < |consumers| && consumers[i].schemaVersion != "" && consumers[i].schemaVersion != newVersion ::
         pinned[i] == StoreOnly(s.store.value, parse, id, consumers[i].schemaVersion)
  }

  /** White space around it does not change what a schema parses to. */
  ghost predicate WhitespaceBlind(parse: Parser) {
    forall u, c, v | AllWhite(u) && AllWhite(v) :: parse(u + c + v) == parse(c)
  }

  /** Hashes are equal exactly when the contents differ in their white margins at most, and then the documents are. */
  lemma HashesDecideDocuments(parse: Parser, a: SchemaEntry, b: SchemaEntry)
    requires Genuine(parse, a) && Genuine(parse, b)
    ensures a.metadata.value.hash == b.metadata.value.hash <==> DifferInMargins(a.content, b.content)
    ensures WhitespaceBlind(parse) && a.metadata.value.hash == b.metadata.value.hash ==> a.document == b.document
  {
    TrimmedAlikeIff(a.content, b.content);
    if WhitespaceBlind(parse) && DifferInMargins(a.content, b.content) {
      var u, m, v, u', v' :| Padded(a.content, u, m, v) && Padded(b.content, u', m, v');
      assert parse(u + m + v) == parse(m) == parse(u' + m + v');
    }
  }

  /** Every consumer got its impact, in order. */
  ghost predicate AllAssessed(impacts: seq<Impact>, consumers: seq<ConsumerEntry>, newVersion: string, newDoc: Document, pinned: seq<Option<SchemaEntry>>) {
    && |impacts| == |pinned| == |consumers|
    && forall i | 0 <= i < |consumers| :: AssessedAs(impacts[i], consumers[i], newVersion, newDoc, pinned[i])
  }

  lemma OneMoreAssessed(impacts: seq<Impact>, impact: Impact, consumers: seq<ConsumerEntry>, n: nat, newVersion: string, newDoc: Document,
                        pinned: seq<Option<SchemaEntry>>, entry: Option<SchemaEntry>)
    requires n < |consumers| && AllAssessed(impacts, consumers[..n], newVersion, newDoc, pinned)
    requires AssessedAs(impact, consumers[n], newVersion, newDoc, entry)
    ensures AllAssessed(impacts + [impact], consumers[..n + 1], newVersion, newDoc, pinned + [entry])
    ensures consumers[..n + 1][..n] == consumers[..n]
  {
    forall i | 0 <= i <= n
      ensures AssessedAs((impacts + [impact])[i], consumers[..n + 1][i], newVersion, newDoc, (pinned + [entry])[i])
    {
      assert i < n ==> consumers[..n][i] == consumers[i];
    }
  }

  /** What CanIDeploy establishes about an assessment. */
  ghost predicate Assessment(verdict: Verdict, consumers: seq<ConsumerEntry>, newVersion: string, newDoc: Document, pinned: seq<Option<SchemaEntry>>) {
    && verdict.Assessed? && AllAssessed(verdict.impacts, consumers, newVersion, newDoc, pinned)
    && (verdict.safe <==> forall i | 0 <= i < |consumers| :: !verdict.impacts[i].willBreak)
  }

  /**
   End to end: a safe verdict means that for every consumer pinned elsewhere its version resolved, and every
   endpoint it uses that the old document serves is still served with nothing due on it.
   */
  lemma SafeVerdictServesEveryone(verdict: Verdict, consumers: seq<ConsumerEntry>, newVersion: string, newDoc: Document,
                                  pinned: seq<Option<SchemaEntry>>, i: nat, path: string, verb: Verb)
    requires Assessment(verdict, consumers, newVersion, newDoc, pinned) && verdict.safe
    requires i < |consumers| && consumers[i].schemaVersion != "" && consumers[i].schemaVersion != newVersion
    requires Uses(consumers[i], path, verb)
    ensures pinned[i].Some?
    ensures Offers(pinned[i].value.document, path, verb) && verb != TRACE && verb != CONNECT ==> Offers(newDoc, path, verb)
    ensures forall f: Finding, place | !(f.BodyFieldTypeChanged? && Disagrees(pinned[i].value.document, path, verb)) ::
      !Due(pinned[i].value.document, newDoc, BreakingChange(path, verb, f), place)
  {
    UnbrokenConsumerIsServed(verdict.impacts[i], consumers[i], newVersion, newDoc, pinned[i], path, verb);
  }

  /** The verdict is "no consumer breaks", whatever order the consumers were listed in and the maps visited. */
  lemma VerdictIgnoresOrder(verdict: Verdict, verdict': Verdict, consumers: seq<ConsumerEntry>, consumers': seq<ConsumerEntry>,
                            newVersion: string, newDoc: Document, pinned: seq<Option<SchemaEntry>>, pinned': seq<Option<SchemaEntry>>,
                            s: Registry, parse: Parser, id: string)
    requires Assessment(verdict, consumers, newVersion, newDoc, pinned)
    requires Assessment(verdict', consumers', newVersion, newDoc, pinned')
    requires forall c :: c in consumers <==> c in consumers'
    requires s.store.Some? && ResolvedByStore(consumers, newVersion, s, parse, id, pinned)
    requires ResolvedByStore(consumers', newVersion, s, parse, id, pinned')
    requires forall v :: StoreOnly(s.store.value, parse, id, v).Some? ==> Undisputed(StoreOnly(s.store.value, parse, id, v).value.document)
    ensures verdict.safe <==> verdict'.safe
    ensures verdict.safe <==> forall c | c in consumers ::
      !BreaksConsumer(c, newVersion, newDoc, StoreOnly(s.store.value, parse, id, c.schemaVersion))
  {
    SafeIffNoneBreaks(verdict, consumers, newVersion, newDoc, pinned, s, parse, id);
    SafeIffNoneBreaks(verdict', consumers', newVersion, newDoc, pinned', s, parse, id);
  }

  lemma SafeIffNoneBreaks(verdict: Verdict, consumers: seq<ConsumerEntry>, newVersion: string, newDoc: Document,
                          pinned: seq<Option<SchemaEntry>>, s: Registry, parse: Parser, id: string)
    requires Assessment(verdict, consumers, newVersion, newDoc, pinned)
    requires s.store.Some? && ResolvedByStore(consumers, newVersion, s, parse, id, pinned)
    requires forall v :: StoreOnly(s.store.value, parse, id, v).Some? ==> Undisputed(StoreOnly(s.store.value, parse, id, v).value.document)
    ensures verdict.safe <==> forall c | c in consumers ::
      !BreaksConsumer(c, newVersion, newDoc, StoreOnly(s.store.value, parse, id, c.schemaVersion))
  {
    forall i | 0 <= i < |consumers|
      ensures verdict.impacts[i].willBreak
         <==> BreaksConsumer(consumers[i], newVersion, newDoc, StoreOnly(s.store.value, parse, id, consumers[i].schemaVersion))
    {
      if consumers[i].schemaVersion != "" && consumers[i].schemaVersion != newVersion {
        ImpactIsDetermined(verdict.impacts[i], consumers[i], newVersion, newDoc, pinned[i]);
      }
    }
  }
}
