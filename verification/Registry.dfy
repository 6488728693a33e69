/**
 The registry's RPCs as functions on plain values: what a lookup and a registration do to the
 cache, the store and the fixture generator. ValidatorService is proved to do exactly this; here
 it is shown that the cache never contradicts the store behind it.
 */
module Registry {
  import opened Prelude
  import opened OpenApi
  import opened Strings
  import opened SchemaCache
  import opened MemoryStore

  /** Parsing, validating and building the router: a deterministic function that may fail. */
  type Parser = string -> Option<Document>

  /** What the fetch_schema plugin answers; Nothing also when none is bound. */
  datatype Fetch = Nothing | Spec(content: string, resolvedVersion: string) | Failed

  /** The service's state. generator maps an ID to the content mirrored last. */
  datatype Registry = Registry(
    entries: Entries, versions: Versions, store: Option<StoreView>, generator: map<string, string>)

  datatype Fetched = Found(entry: SchemaEntry) | Absent | Refused

  /** A schema entry; the SHA-256 of the trimmed content is injective, so the trimmed content stands for it. */
  function MakeEntry(content: string, doc: Document, version: string): SchemaEntry {
    SchemaEntry(doc, content, Some(Metadata(version, Trim(content))))
  }

  function CacheSet(s: Registry, id: string, entry: SchemaEntry): Registry {
    s.(entries := WithEntry(s.entries, id, entry),
       versions := if IsVersioned(entry) then Tracked(s.versions, id, entry.metadata.value.version) else s.versions)
  }

  function CacheSetVersion(s: Registry, id: string, version: string, entry: SchemaEntry): Registry {
    s.(entries := s.entries[VersionedKey(id, version) := entry], versions := Tracked(s.versions, id, version))
  }

  function Cached(s: Registry, id: string, version: string): Option<SchemaEntry> {
    var key := if version == "" then id else VersionedKey(id, version);
    if key in s.entries then Some(s.entries[key]) else None
  }

  /** tryFetchSchemaFromPlugin. */
  function FromPlugin(s: Registry, parse: Parser, id: string, version: string, fetch: Fetch): (Registry, Fetched) {
    match fetch
    case Failed => (s, Refused)
    case Nothing => (s, Absent)
    case Spec(content, resolvedVersion) =>
      if content == "" || parse(content).None? then (s, Absent) else
        var doc := parse(content).value;
        var resolved := if resolvedVersion == "" then doc.version else resolvedVersion;
        var entry := MakeEntry(content, doc, resolved);
        var s' :=
          if version == "" then CacheSet(s, id, entry)
          else if resolved != "" && resolved != version then
            CacheSetVersion(CacheSetVersion(s, id, version, entry), id, resolved, entry)
          else CacheSetVersion(s, id, version, entry);
        (s'.(generator := s'.generator[id := content]), Found(entry))
  }

  ghost function LatestVersion(view: StoreView, id: string): Option<string> {
    if v :| IsLatest(view, id, v) then Some(v) else None
  }

  lemma LatestVersionIs(view: StoreView, id: string, version: string)
    requires OneLatest(view) && IsLatest(view, id, version)
    ensures LatestVersion(view, id) == Some(version)
  {
  }

  /** The version a lookup of the store settles on. */
  ghost function StoredVersion(view: StoreView, id: string, version: string): Option<string> {
    if version == "" then LatestVersion(view, id)
    else if id in view && version in view[id] then Some(version) else None
  }

  /** A lookup that goes to the store alone. */
  ghost function StoreOnly(view: StoreView, parse: Parser, id: string, version: string): Option<SchemaEntry> {
    var v := StoredVersion(view, id, version);
    if v.Some? && parse(view[id][v.value].content).Some?
    then Some(MakeEntry(view[id][v.value].content, parse(view[id][v.value].content).value, v.value))
    else None
  }

  /** getSchemaEntry: the cache, then the plugin, then the store, refilling the cache on the way. */
  ghost function Lookup(s: Registry, parse: Parser, id: string, version: string, fetch: Fetch): (Registry, Option<SchemaEntry>) {
    if Cached(s, id, version).Some? then (s, Cached(s, id, version)) else
      var (s', fetched) := FromPlugin(s, parse, id, version, fetch);
      if fetched.Found? then (s', Some(fetched.entry))
      else if fetched.Refused? || s'.store.None? then (s', None)
      else
        var entry := StoreOnly(s'.store.value, parse, id, version);
        if entry.None? then (s', None) else
          var s'' := if version == "" then CacheSet(s', id, entry.value)
                     else CacheSetVersion(s', id, entry.value.metadata.value.version, entry.value);
          (s''.(generator := s''.generator[id := entry.value.content]), entry)
  }

  // ---- What a fetch leaves behind ---------------------------------------------------------

  /** The entry is what its own content parses to, under that content's hash. */
  ghost predicate Genuine(parse: Parser, entry: SchemaEntry) {
    && entry.metadata.Some? && entry.metadata.value.hash == Trim(entry.content)
    && parse(entry.content) == Some(entry.document)
  }

  ghost predicate AllGenuine(parse: Parser, entries: Entries) {
    forall key | key in entries :: Genuine(parse, entries[key])
  }

  /** The keys a fetch is entitled to: those of the version asked for and of the one it resolved to. */
  ghost predicate Fetches(id: string, version: string, resolved: string, key: string) {
    (key == if version == "" then id else VersionedKey(id, version)) || (resolved != "" && key == VersionedKey(id, resolved))
  }

  /** entries and entries' differ at no key but those, all of which now hold entry. */
  ghost predicate Settled(entries: Entries, entries': Entries, id: string, version: string, entry: SchemaEntry)
    requires entry.metadata.Some?
  {
    forall key ::
      if Fetches(id, version, entry.metadata.value.version, key) then key in entries' && entries'[key] == entry
      else (key in entries' <==> key in entries) && (key in entries ==> entries'[key] == entries[key])
  }

  /** A fetch never writes the store. One that gives nothing leaves no trace; a found entry is genuine and stands under its own keys alone. */
  lemma FetchSettlesItsKeys(s: Registry, parse: Parser, id: string, version: string, fetch: Fetch)
    ensures var (s', fetched) := FromPlugin(s, parse, id, version, fetch);
      && s'.store == s.store
      && (fetched.Found? <==> fetch.Spec? && fetch.content != "" && parse(fetch.content).Some?)
      && (!fetched.Found? ==> s' == s)
      && (fetched.Found? ==>
            && Genuine(parse, fetched.entry) && fetched.entry.content == fetch.content
            && Settled(s.entries, s'.entries, id, version, fetched.entry)
            && s'.generator == s.generator[id := fetch.content])
  {
  }

  /** A found entry answers every later lookup of the version asked for, and of the one it resolved to, whatever the plugin says then. */
  lemma FetchAnswersLaterLookups(s: Registry, parse: Parser, id: string, version: string, fetch: Fetch, later: Fetch)
    requires FromPlugin(s, parse, id, version, fetch).1.Found?
    ensures var (s', fetched) := FromPlugin(s, parse, id, version, fetch);
      var resolved := fetched.entry.metadata.value.version;
      && Lookup(s', parse, id, version, later) == (s', Some(fetched.entry))
      && (resolved != "" ==> Lookup(s', parse, id, resolved, later) == (s', Some(fetched.entry)))
  {
    FetchSettlesItsKeys(s, parse, id, version, fetch);
    var (s', fetched) := FromPlugin(s, parse, id, version, fetch);
    var resolved := fetched.entry.metadata.value.version;
    assert Fetches(id, version, resolved, if version == "" then id else VersionedKey(id, version));
    assert resolved != "" ==> Fetches(id, version, resolved, VersionedKey(id, resolved));
  }

  datatype Prior = Prior(entry: SchemaEntry) | NoPrior | LookupError

  /** lookupPriorSchemaForCompat: as a lookup of the latest version, but errors surface and the store is not cached. */
  ghost function LookupPrior(s: Registry, parse: Parser, id: string, fetch: Fetch): (Registry, Prior) {
    if Cached(s, id, "").Some? then (s, Prior(Cached(s, id, "").value)) else
      var (s', fetched) := FromPlugin(s, parse, id, "", fetch);
      if fetched.Found? then (s', Prior(fetched.entry))
      else if fetched.Refused? then (s', LookupError)
      else if s'.store.None? then (s', NoPrior)
      else
        var entry := StoreOnly(s'.store.value, parse, id, "");
        (s', if entry.Some? then Prior(entry.value) else LookupError)
  }

  /** Lookups, whatever the plugin answers, put nothing but genuine entries in the cache. */
  lemma LookupKeepsGenuine(s: Registry, parse: Parser, id: string, version: string, fetch: Fetch)
    requires AllGenuine(parse, s.entries)
    ensures var (s', entry) := Lookup(s, parse, id, version, fetch);
      AllGenuine(parse, s'.entries) && s'.store == s.store && (entry.Some? ==> Genuine(parse, entry.value))
  {
  }

  /** A found latest version is in the cache from then on, and no lookup takes it out. */
  lemma LookupsKeepKeys(s: Registry, parse: Parser, id: string, version: string, fetch: Fetch)
    ensures var (s', entry) := Lookup(s, parse, id, version, fetch);
      s'.store == s.store && s.entries.Keys <= s'.entries.Keys && (version == "" && entry.Some? ==> Cached(s', id, "") == entry)
  {
    var (s', fetched) := FromPlugin(s, parse, id, version, fetch);
    FetchSettlesItsKeys(s, parse, id, version, fetch);
    if fetched.Found? {
      assert version == "" ==> Fetches(id, version, fetched.entry.metadata.value.version, id);
    }
  }

  datatype RegisterRequest = RegisterRequest(schemaId: string, content: string, schemaVersion: string, checkCompatibility: bool)

  datatype Refusal = InvalidRequest | ParseError | MissingVersion | VersionMismatch | CompatibilityLookupError

  /** baseline is the prior schema the new one was compared with; unsaved, that the store did not take it. */
  datatype Registration =
    | Rejected(reason: Refusal)
    | Registered(entry: SchemaEntry, baseline: Option<SchemaEntry>, unsaved: bool)

  const MAX_SCHEMA_ID_LENGTH := 255
  const MAX_SCHEMA_CONTENT_BYTES := 10485760

  predicate ValidRequest(request: RegisterRequest) {
    && Trim(request.schemaId) != "" && |request.schemaId| <= MAX_SCHEMA_ID_LENGTH
    && Trim(request.content) != "" && |request.content| <= MAX_SCHEMA_CONTENT_BYTES
  }

  /** Everything checked before the compatibility lookup. */
  function Screened(parse: Parser, request: RegisterRequest): Option<Refusal> {
    if !ValidRequest(request) then Some(InvalidRequest)
    else if parse(request.content).None? then Some(ParseError)
    else
      var version := parse(request.content).value.version;
      if version == "" then Some(MissingVersion)
      else if request.schemaVersion != "" && request.schemaVersion != version then Some(VersionMismatch)
      else None
  }

  function Commit(s: Registry, parse: Parser, request: RegisterRequest, saved: bool, now: int): (r: Registry)
    requires Screened(parse, request).None?
  {
    var doc := parse(request.content).value;
    var entry := MakeEntry(request.content, doc, doc.version);
    var s' := CacheSet(s, request.schemaId, entry);
    s'.(generator := s'.generator[request.schemaId := request.content],
        store := if s'.store.Some? && saved
                 then Some(WithSchema(s'.store.value, request.schemaId, doc.version, request.content, now)) else s'.store)
  }

  /** RegisterSchema; saved says whether a store write would succeed. */
  ghost function Register(s: Registry, parse: Parser, request: RegisterRequest, fetch: Fetch, saved: bool, now: int): (Registry, Registration) {
    if Screened(parse, request).Some? then (s, Rejected(Screened(parse, request).value)) else
      var (s', prior) := if request.checkCompatibility then LookupPrior(s, parse, request.schemaId, fetch) else (s, NoPrior);
      if prior.LookupError? then (s', Rejected(CompatibilityLookupError)) else
        var doc := parse(request.content).value;
        (Commit(s', parse, request, saved, now),
         Registered(MakeEntry(request.content, doc, doc.version),
                    if prior.Prior? then Some(prior.entry) else None,
                    s'.store.Some? && !saved))
  }

  // ---- The cache agrees with the store ----------------------------------------------------

  /** Every bare key holds the store's latest record of its ID, every versioned key that version's record. */
  ghost predicate Coherent(s: Registry, parse: Parser) {
    && s.store.Some? && OneLatest(s.store.value)
    && (forall id | '@' !in id && id in s.entries :: StoreOnly(s.store.value, parse, id, "") == Some(s.entries[id]))
    && (forall id, v | '@' !in id && v != "" && VersionedKey(id, v) in s.entries ::
          StoreOnly(s.store.value, parse, id, v) == Some(s.entries[VersionedKey(id, v)]))
  }

  /** Adding the store's own answer under a bare key keeps the agreement. */
  lemma FillKeepsCoherent(s: Registry, parse: Parser, id: string, entry: SchemaEntry)
    requires Coherent(s, parse) && '@' !in id
    requires StoreOnly(s.store.value, parse, id, "") == Some(entry)
    ensures Coherent(CacheSet(s, id, entry), parse)
  {
    var s', version := CacheSet(s, id, entry), entry.metadata.value.version;
    assert IsLatest(s.store.value, id, version);
    forall id', v | '@' !in id' && v != "" && VersionedKey(id', v) in s'.entries
      ensures StoreOnly(s.store.value, parse, id', v) == Some(s'.entries[VersionedKey(id', v)])
    {
      VersionedKeyIsNotBare(id', v, id);
      if IsVersioned(entry) && VersionedKey(id', v) == VersionedKey(id, version) {
        VersionedKeyIsInjective(id', v, id, version);
      }
    }
    forall id' | '@' !in id' && id' in s'.entries ensures StoreOnly(s.store.value, parse, id', "") == Some(s'.entries[id']) {
      VersionedKeyIsNotBare(id, version, id');
    }
  }

  lemma FillVersionKeepsCoherent(s: Registry, parse: Parser, id: string, version: string, entry: SchemaEntry)
    requires Coherent(s, parse) && '@' !in id && version != ""
    requires StoreOnly(s.store.value, parse, id, version) == Some(entry)
    ensures Coherent(CacheSetVersion(s, id, version, entry), parse)
  {
    var s' := CacheSetVersion(s, id, version, entry);
    forall id', v | '@' !in id' && v != "" && VersionedKey(id', v) in s'.entries
      ensures StoreOnly(s.store.value, parse, id', v) == Some(s'.entries[VersionedKey(id', v)])
    {
      if VersionedKey(id', v) == VersionedKey(id, version) {
        VersionedKeyIsInjective(id', v, id, version);
      }
    }
    forall id' | '@' !in id' && id' in s'.entries ensures StoreOnly(s.store.value, parse, id', "") == Some(s'.entries[id']) {
      VersionedKeyIsNotBare(id, version, id');
    }
  }

  /** Without a plugin, a lookup answers what the store alone would, and keeps the agreement. */
  lemma LookupRefinesStore(s: Registry, parse: Parser, id: string, version: string)
    requires Coherent(s, parse) && '@' !in id
    ensures var (s', entry) := Lookup(s, parse, id, version, Nothing);
      && entry == StoreOnly(s.store.value, parse, id, version)
      && s'.store == s.store && Coherent(s', parse)
  {
    var entry := StoreOnly(s.store.value, parse, id, version);
    if Cached(s, id, version).None? && entry.Some? {
      if version == "" {
        FillKeepsCoherent(s, parse, id, entry.value);
      } else {
        FillVersionKeepsCoherent(s, parse, id, version, entry.value);
      }
    }
  }

  lemma PriorIsStoreLatest(s: Registry, parse: Parser, id: string)
    requires Coherent(s, parse) && '@' !in id
    ensures var latest := StoreOnly(s.store.value, parse, id, "");
      LookupPrior(s, parse, id, Nothing) == (s, if latest.Some? then Prior(latest.value) else LookupError)
  {
  }

  /** Setting a schema changes what the store answers for that ID's latest and that version, and nothing else. */
  lemma StoreOnlyAfterSet(view: StoreView, parse: Parser, id: string, version: string, content: string, now: int, id': string, v: string)
    requires OneLatest(view) && version != "" && parse(content).Some?
    ensures var view' := WithSchema(view, id, version, content, now);
      StoreOnly(view', parse, id', v)
        == if id' == id && (v == "" || v == version) then Some(MakeEntry(content, parse(content).value, version))
           else StoreOnly(view, parse, id', v)
  {
    var view' := WithSchema(view, id, version, content, now);
    WithSchemaIsLatest(view, id, version, content, now);
    if v == "" {
      if id' == id {
        LatestVersionIs(view', id, version);
      } else if u :| IsLatest(view, id', u) {
        LatestVersionIs(view, id', u);
        LatestVersionIs(view', id', u);
      } else {
        assert LatestVersion(view', id').None?;
      }
    }
  }

  lemma CommitKeepsCoherent(s: Registry, parse: Parser, request: RegisterRequest, now: int)
    requires Coherent(s, parse) && '@' !in request.schemaId && Screened(parse, request).None?
    ensures Coherent(Commit(s, parse, request, true, now), parse)
  {
    var s' := Commit(s, parse, request, true, now);
    var id, version := request.schemaId, parse(request.content).value.version;
    var view, view' := s.store.value, s'.store.value;
    WithSchemaIsLatest(view, id, version, request.content, now);
    forall id' | '@' !in id' && id' in s'.entries ensures StoreOnly(view', parse, id', "") == Some(s'.entries[id']) {
      VersionedKeyIsNotBare(id, version, id');
      StoreOnlyAfterSet(view, parse, id, version, request.content, now, id', "");
    }
    forall id', v | '@' !in id' && v != "" && VersionedKey(id', v) in s'.entries
      ensures StoreOnly(view', parse, id', v) == Some(s'.entries[VersionedKey(id', v)])
    {
      VersionedKeyIsNotBare(id', v, id);
      StoreOnlyAfterSet(view, parse, id, version, request.content, now, id', v);
      if VersionedKey(id', v) == VersionedKey(id, version) {
        VersionedKeyIsInjective(id', v, id, version);
      }
    }
  }

  // ---- Runs -------------------------------------------------------------------------------

  datatype Event =
    | LookupCall(id: string, version: string)
    | RegisterCall(request: RegisterRequest, now: int)
    | Eviction(key: string)

  predicate AtFree(e: Event) {
    match e
    case LookupCall(id, _) => '@' !in id
    case RegisterCall(request, _) => '@' !in request.schemaId
    case Eviction(_) => true
  }

  /** One RPC or eviction, with no plugin bound and store writes succeeding. */
  ghost function Step(s: Registry, parse: Parser, e: Event): Registry {
    match e
    case LookupCall(id, version) => Lookup(s, parse, id, version, Nothing).0
    case RegisterCall(request, now) => Register(s, parse, request, Nothing, true, now).0
    case Eviction(key) => s.(entries := s.entries - {key})
  }

  ghost function Run(s: Registry, parse: Parser, events: seq<Event>): Registry {
    if events == [] then s else Step(Run(s, parse, events[..|events| - 1]), parse, events[|events| - 1])
  }

  lemma StepKeepsCoherent(s: Registry, parse: Parser, e: Event)
    requires Coherent(s, parse) && AtFree(e)
    ensures Coherent(Step(s, parse, e), parse)
  {
    match e
    case LookupCall(id, version) => LookupRefinesStore(s, parse, id, version);
    case RegisterCall(request, now) =>
      if Screened(parse, request).None? {
        PriorIsStoreLatest(s, parse, request.schemaId);
        CommitKeepsCoherent(s, parse, request, now);
      }
    case Eviction(key) =>
  }

  lemma {:induction false} RunKeepsCoherent(s: Registry, parse: Parser, events: seq<Event>)
    requires Coherent(s, parse) && forall e | e in events :: AtFree(e)
    ensures Coherent(Run(s, parse, events), parse)
  {
    if events != [] {
      assert events == events[..|events| - 1] + [events[|events| - 1]];
      RunKeepsCoherent(s, parse, events[..|events| - 1]);
      StepKeepsCoherent(Run(s, parse, events[..|events| - 1]), parse, events[|events| - 1]);
    }
  }

  /**
   Read-through refinement: starting from an empty cache in front of any store, after any run of
   registrations, lookups and evictions of arbitrary keys, a lookup answers what the store alone would.
   */
  lemma ReadThroughRefinesStore(view: StoreView, parse: Parser, events: seq<Event>, id: string, version: string)
    requires OneLatest(view) && '@' !in id && forall e | e in events :: AtFree(e)
    ensures var s := Run(Registry(map[], map[], Some(view), map[]), parse, events);
      s.store.Some? && Lookup(s, parse, id, version, Nothing).1 == StoreOnly(s.store.value, parse, id, version)
  {
    var start := Registry(map[], map[], Some(view), map[]);
    RunKeepsCoherent(start, parse, events);
    LookupRefinesStore(Run(start, parse, events), parse, id, version);
  }

  /** A checked registration that goes through was compared with the store's latest record of its ID. */
  lemma CheckedAgainstLatest(s: Registry, parse: Parser, request: RegisterRequest, saved: bool, now: int)
    requires Coherent(s, parse) && '@' !in request.schemaId && request.checkCompatibility
    ensures var r := Register(s, parse, request, Nothing, saved, now).1;
      && (r.Registered? ==> r.baseline.Some? && r.baseline == StoreOnly(s.store.value, parse, request.schemaId, ""))
      && (Screened(parse, request).None? ==>
            (r == Rejected(CompatibilityLookupError) <==> StoreOnly(s.store.value, parse, request.schemaId, "").None?))
  {
    PriorIsStoreLatest(s, parse, request.schemaId);
  }

  /** With a store, the first checked registration of an unknown ID is refused and changes nothing. */
  lemma FirstCheckedRegistrationIsRefused(s: Registry, parse: Parser, request: RegisterRequest, saved: bool, now: int)
    requires s.store.Some? && request.schemaId !in s.entries && forall v :: !IsLatest(s.store.value, request.schemaId, v)
    requires request.checkCompatibility && Screened(parse, request).None?
    ensures Register(s, parse, request, Nothing, saved, now) == (s, Rejected(CompatibilityLookupError))
  {
  }

  /** There is an '@' with something after it, so the ID could be another's versioned key. */
  predicate HasInnerAt(id: string) {
    exists i | 0 <= i < |id| - 1 :: id[i] == '@'
  }

  lemma VersionedKeyHasInnerAt(id: string, version: string, id': string)
    requires version != "" && !HasInnerAt(id')
    ensures VersionedKey(id, version) != id'
  {
    assert VersionedKey(id, version)[|id|] == '@' && |VersionedKey(id, version)| - 1 > |id|;
  }

  /** A pinned lookup, by store or plugin, never changes what an unpinned lookup of an ID without an inner '@' returns. */
  lemma PinnedLookupIsHarmless(s: Registry, parse: Parser, id: string, version: string, fetch: Fetch, id': string, fetch': Fetch)
    requires version != "" && !HasInnerAt(id')
    ensures var s' := Lookup(s, parse, id, version, fetch).0;
      Lookup(s', parse, id', "", fetch').1 == Lookup(s, parse, id', "", fetch').1
  {
    var s' := Lookup(s, parse, id, version, fetch).0;
    forall v | v != "" ensures VersionedKey(id, v) != id' {
      VersionedKeyHasInnerAt(id, v, id');
    }
    assert Cached(s', id', "") == Cached(s, id', "") && s'.store == s.store;
  }

  /** For any other ID it can: pinning what follows the inner '@' for what precedes it makes an unregistered ID resolve. */
  lemma InnerAtLeaks(parse: Parser, content: string, id: string, version: string)
    requires parse(content).Some? && version != ""
    ensures var s := Registry(map[], map[], Some(map[id := map[version := Stored(content, 0, true)]]), map[]);
      && Lookup(s, parse, VersionedKey(id, version), "", Nothing).1 == None
      && Lookup(Lookup(s, parse, id, version, Nothing).0, parse, VersionedKey(id, version), "", Nothing).1.Some?
  {
    var key := VersionedKey(id, version);
    var view: StoreView := map[id := map[version := Stored(content, 0, true)]];
    var s := Registry(map[], map[], Some(view), map[]);
    assert |key| > |id| && key !in view;
    assert LatestVersion(view, key).None?;
    assert Lookup(s, parse, id, version, Nothing).0.entries == map[key := MakeEntry(content, parse(content).value, version)];
  }

  /** Pinned lookups leave the unpinned answers for an ID alone, in every registry, exactly when it has no inner '@'. */
  lemma PinnedLookupIsHarmlessIff(parse: Parser, content: string, id': string)
    requires parse(content).Some?
    ensures (forall s, id, version, fetch, fetch' | version != "" ::
               Lookup(Lookup(s, parse, id, version, fetch).0, parse, id', "", fetch').1 == Lookup(s, parse, id', "", fetch').1)
      <==> !HasInnerAt(id')
  {
    if HasInnerAt(id') {
      var i :| 0 <= i < |id'| - 1 && id'[i] == '@';
      assert id' == VersionedKey(id'[..i], id'[i + 1..]);
      InnerAtLeaks(parse, content, id'[..i], id'[i + 1..]);
    } else {
      forall s, id, version, fetch, fetch' | version != ""
        ensures Lookup(Lookup(s, parse, id, version, fetch).0, parse, id', "", fetch').1 == Lookup(s, parse, id', "", fetch').1
      {
        PinnedLookupIsHarmless(s, parse, id, version, fetch, id', fetch');
      }
    }
  }

  /** A registration's own entry. */
  function EntryOf(parse: Parser, request: RegisterRequest): SchemaEntry
    requires Screened(parse, request).None?
  {
    MakeEntry(request.content, parse(request.content).value, parse(request.content).value.version)
  }

  /**
   When the store refuses the write, cache and store still agree exactly when the schema was the
   store's latest already.
   */
  lemma UnsavedCommitAgreesIff(s: Registry, parse: Parser, request: RegisterRequest, now: int)
    requires Coherent(s, parse) && '@' !in request.schemaId && Screened(parse, request).None?
    ensures Coherent(Commit(s, parse, request, false, now), parse)
      <==> StoreOnly(s.store.value, parse, request.schemaId, "") == Some(EntryOf(parse, request))
  {
    var id, entry := request.schemaId, EntryOf(parse, request);
    var s' := Commit(s, parse, request, false, now);
    VersionedKeyIsNotBare(id, entry.metadata.value.version, id);
    assert id in s'.entries && s'.entries[id] == entry && s'.store == s.store;
    if StoreOnly(s.store.value, parse, id, "") == Some(entry) {
      FillKeepsCoherent(s, parse, id, entry);
    }
  }

  /** The registration will be refused: it fails the checks before the lookup, or asks for a comparison the store has no record for. */
  ghost predicate Unacceptable(s: Registry, parse: Parser, request: RegisterRequest)
    requires s.store.Some?
  {
    Screened(parse, request).Some? || (request.checkCompatibility && StoreOnly(s.store.value, parse, request.schemaId, "").None?)
  }

  /** For whole registrations, checked or not: agreement is kept exactly when they are refused or re-register the store's latest. */
  lemma UnsavedRegistrationAgreesIff(s: Registry, parse: Parser, request: RegisterRequest, now: int)
    requires Coherent(s, parse) && '@' !in request.schemaId
    ensures Coherent(Register(s, parse, request, Nothing, false, now).0, parse) <==>
      Unacceptable(s, parse, request) || StoreOnly(s.store.value, parse, request.schemaId, "") == Some(EntryOf(parse, request))
  {
    PriorIsStoreLatest(s, parse, request.schemaId);
    if Screened(parse, request).None? {
      UnsavedCommitAgreesIff(s, parse, request, now);
    }
  }

  /** Where it is not kept, the next lookup of the ID shows it. */
  lemma UnsavedRegistrationShowsIff(s: Registry, parse: Parser, request: RegisterRequest, now: int)
    requires Coherent(s, parse) && '@' !in request.schemaId
    ensures var s' := Register(s, parse, request, Nothing, false, now).0;
      Lookup(s', parse, request.schemaId, "", Nothing).1 == StoreOnly(s'.store.value, parse, request.schemaId, "") <==>
        Unacceptable(s, parse, request) || StoreOnly(s.store.value, parse, request.schemaId, "") == Some(EntryOf(parse, request))
  {
    var s' := Register(s, parse, request, Nothing, false, now).0;
    PriorIsStoreLatest(s, parse, request.schemaId);
    if Unacceptable(s, parse, request) {
      LookupRefinesStore(s', parse, request.schemaId, "");
    } else {
      VersionedKeyIsNotBare(request.schemaId, EntryOf(parse, request).metadata.value.version, request.schemaId);
      assert Cached(s', request.schemaId, "") == Some(EntryOf(parse, request));
    }
  }
}
