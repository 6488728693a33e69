/**
 What lookups and registrations answer and leave behind, written out in keys, contents and fields: the
 order in which cache, plugin and store are asked, the checks a request has to pass, and every entry
 and record that changes. None of it goes through the functions of Registry it is proved of.
 */
module RegistryRules {
  import opened Prelude
  import opened OpenApi
  import opened Strings
  import opened SchemaCache
  import opened MemoryStore
  import opened Registry

  // ---- Lookups ----------------------------------------------------------------------------

  /** The record under v is what the store has for that version, or, where none is given, its latest. */
  predicate Holds(view: StoreView, id: string, version: string, v: string) {
    id in view && v in view[id] && (if version == "" then view[id][v].latest else v == version)
  }

  /** The entry is that content parsed, under that version and the hash of the content. */
  ghost predicate Made(parse: Parser, content: string, version: string, entry: SchemaEntry) {
    && parse(content) == Some(entry.document) && entry.content == content
    && entry.metadata.Some? && entry.metadata.value.version == version && entry.metadata.value.hash == Trim(content)
  }

  ghost predicate StoreGives(view: StoreView, parse: Parser, id: string, version: string, entry: SchemaEntry) {
    exists v :: Holds(view, id, version, v) && Made(parse, view[id][v].content, v, entry)
  }

  lemma StoreAnswers(view: StoreView, parse: Parser, id: string, version: string, entry: SchemaEntry)
    requires OneLatest(view)
    ensures StoreOnly(view, parse, id, version) == Some(entry) <==> StoreGives(view, parse, id, version, entry)
  {
    if v :| Holds(view, id, version, v) && Made(parse, view[id][v].content, v, entry) {
      assert version == "" ==> IsLatest(view, id, v);
    }
    if StoreOnly(view, parse, id, version) == Some(entry) {
      var v := StoredVersion(view, id, version).value;
      assert Holds(view, id, version, v) && Made(parse, view[id][v].content, v, entry);
    }
  }

  /** The plugin's answer can be used. */
  predicate Usable(parse: Parser, fetch: Fetch) {
    fetch.Spec? && fetch.content != "" && parse(fetch.content).Some?
  }

  ghost predicate PluginGives(parse: Parser, fetch: Fetch, entry: SchemaEntry) {
    && Usable(parse, fetch)
    && Made(parse, fetch.content, if fetch.resolvedVersion == "" then entry.document.version else fetch.resolvedVersion, entry)
  }

  function KeyFor(id: string, version: string): string {
    if version == "" then id else id + "@" + version
  }

  /** The right answer to a lookup: the cache's; failing that the plugin's, whose refusal is final; failing that the store's. */
  ghost predicate Answered(s: Registry, parse: Parser, id: string, version: string, fetch: Fetch, entry: Option<SchemaEntry>) {
    if KeyFor(id, version) in s.entries then entry == Some(s.entries[KeyFor(id, version)])
    else if fetch.Failed? then entry == None
    else if Usable(parse, fetch) then entry.Some? && PluginGives(parse, fetch, entry.value)
    else if s.store.None? then entry == None
    else if entry.Some? then StoreGives(s.store.value, parse, id, version, entry.value)
    else forall e :: !StoreGives(s.store.value, parse, id, version, e)
  }

  lemma LookupAnswers(s: Registry, parse: Parser, id: string, version: string, fetch: Fetch)
    requires s.store.Some? ==> OneLatest(s.store.value)
    ensures Answered(s, parse, id, version, fetch, Lookup(s, parse, id, version, fetch).1)
  {
    if s.store.Some? {
      forall e ensures StoreOnly(s.store.value, parse, id, version) == Some(e) <==> StoreGives(s.store.value, parse, id, version, e) {
        StoreAnswers(s.store.value, parse, id, version, e);
      }
    }
  }

  /** The prior schema of a registration is the answer to a lookup of the latest; with a store behind it, none is an error. */
  lemma PriorAnswers(s: Registry, parse: Parser, id: string, fetch: Fetch)
    requires s.store.Some? ==> OneLatest(s.store.value)
    ensures var prior := LookupPrior(s, parse, id, fetch).1;
      && Answered(s, parse, id, "", fetch, if prior.Prior? then Some(prior.entry) else None)
      && (prior.NoPrior? <==> id !in s.entries && !fetch.Failed? && !Usable(parse, fetch) && s.store.None?)
  {
    if s.store.Some? {
      forall e ensures StoreOnly(s.store.value, parse, id, "") == Some(e) <==> StoreGives(s.store.value, parse, id, "", e) {
        StoreAnswers(s.store.value, parse, id, "", e);
      }
    }
  }

  // ---- What a lookup writes ---------------------------------------------------------------

  /** An entry got under those names stands at the keys of both, and no other key changed. */
  ghost predicate StandsUnder(before: Entries, after: Entries, id: string, version: string, entry: SchemaEntry)
    requires entry.metadata.Some?
  {
    forall key ::
      if key == KeyFor(id, version) || (entry.metadata.value.version != "" && key == id + "@" + entry.metadata.value.version)
      then key in after && after[key] == entry
      else (key in after <==> key in before) && (key in before ==> after[key] == before[key])
  }

  /** Those names, apart from empty ones, are added to the versions tracked for id. */
  ghost predicate TracksNames(before: Versions, after: Versions, id: string, names: set<string>) {
    && (forall v :: v in VersionsOf(after, id) <==> v in VersionsOf(before, id) || (v in names && v != ""))
    && forall id' | id' != id :: VersionsOf(after, id') == VersionsOf(before, id')
  }

  lemma {:induction false} InsertedHas(names: seq<string>, v: string, u: string)
    ensures u in Inserted(names, v) <==> u in names || u == v
  {
    if names != [] {
      InsertedHas(names[1..], v, u);
      assert names == [names[0]] + names[1..];
    }
  }

  lemma TrackedHas(versions: Versions, id: string, version: string)
    ensures forall v :: v in VersionsOf(Tracked(versions, id, version), id) <==> v in VersionsOf(versions, id) || v == version
    ensures forall id' | id' != id :: VersionsOf(Tracked(versions, id, version), id') == VersionsOf(versions, id')
  {
    forall v ensures v in Inserted(VersionsOf(versions, id), version) <==> v in VersionsOf(versions, id) || v == version {
      InsertedHas(VersionsOf(versions, id), version, v);
    }
  }

  lemma SetSettles(s: Registry, id: string, entry: SchemaEntry)
    requires entry.metadata.Some?
    ensures var s' := CacheSet(s, id, entry);
      && StandsUnder(s.entries, s'.entries, id, "", entry)
      && TracksNames(s.versions, s'.versions, id, {entry.metadata.value.version})
  {
    TrackedHas(s.versions, id, entry.metadata.value.version);
  }

  /** The entry set under the version asked for and under its own. */
  function SetBoth(s: Registry, id: string, version: string, entry: SchemaEntry): Registry
    requires entry.metadata.Some?
  {
    var v, s' := entry.metadata.value.version, CacheSetVersion(s, id, version, entry);
    if v != "" && v != version then CacheSetVersion(s', id, v, entry) else s'
  }

  lemma SetBothSettles(s: Registry, id: string, version: string, entry: SchemaEntry)
    requires version != "" && entry.metadata.Some?
    ensures var s' := SetBoth(s, id, version, entry);
      && StandsUnder(s.entries, s'.entries, id, version, entry)
      && TracksNames(s.versions, s'.versions, id, {version, entry.metadata.value.version})
  {
    TrackedHas(s.versions, id, version);
    TrackedHas(Tracked(s.versions, id, version), id, entry.metadata.value.version);
  }

  /** A lookup of something not cached has set what it got, and mirrored its content. */
  lemma LookupSets(s: Registry, parse: Parser, id: string, version: string, fetch: Fetch)
    requires KeyFor(id, version) !in s.entries && Lookup(s, parse, id, version, fetch).1.Some?
    ensures var (s', entry) := Lookup(s, parse, id, version, fetch);
      && entry.value.metadata.Some?
      && s' == (if version == "" then CacheSet(s, id, entry.value) else SetBoth(s, id, version, entry.value))
               .(generator := s.generator[id := entry.value.content])
  {
  }

  /** A lookup writes what it got, under the version asked for and the entry's own, and only when it was not cached. */
  lemma LookupSettles(s: Registry, parse: Parser, id: string, version: string, fetch: Fetch)
    ensures var (s', entry) := Lookup(s, parse, id, version, fetch);
      && s'.store == s.store
      && (KeyFor(id, version) in s.entries || entry.None? ==> s' == s)
      && (KeyFor(id, version) !in s.entries && entry.Some? ==>
            && entry.value.metadata.Some?
            && StandsUnder(s.entries, s'.entries, id, version, entry.value)
            && TracksNames(s.versions, s'.versions, id, {version, entry.value.metadata.value.version})
            && s'.generator == s.generator[id := entry.value.content])
  {
    if KeyFor(id, version) !in s.entries && Lookup(s, parse, id, version, fetch).1.Some? {
      LookupSets(s, parse, id, version, fetch);
      var entry := Lookup(s, parse, id, version, fetch).1.value;
      if version == "" {
        SetSettles(s, id, entry);
      } else {
        SetBothSettles(s, id, version, entry);
      }
    }
  }

  // ---- Registrations ----------------------------------------------------------------------

  /** The request is out of form. */
  predicate Malformed(request: RegisterRequest) {
    || AllWhite(request.schemaId) || |request.schemaId| > 255
    || AllWhite(request.content) || |request.content| > 10485760
  }

  lemma MalformedIff(request: RegisterRequest)
    ensures ValidRequest(request) <==> !Malformed(request)
  {
    TrimmedEmptyIff(request.schemaId);
    TrimmedEmptyIff(request.content);
  }

  /** Everything is in order up to the compatibility lookup. */
  predicate InOrder(parse: Parser, request: RegisterRequest) {
    && !Malformed(request) && parse(request.content).Some?
    && var version := parse(request.content).value.version;
    && version != "" && (request.schemaVersion == "" || request.schemaVersion == version)
  }

  /**
   Why a registration is refused: the first of these that applies, form, syntax, missing version, other version
   than announced, and last a comparison asked for but with nothing to compare with.
   */
  lemma RefusedForTheFirst(s: Registry, parse: Parser, request: RegisterRequest, fetch: Fetch, saved: bool, now: int)
    ensures var r := Register(s, parse, request, fetch, saved, now).1;
      var doc := parse(request.content);
      && (r == Rejected(InvalidRequest) <==> Malformed(request))
      && (r == Rejected(ParseError) <==> !Malformed(request) && doc.None?)
      && (r == Rejected(MissingVersion) <==> !Malformed(request) && doc.Some? && doc.value.version == "")
      && (r == Rejected(VersionMismatch) <==> !Malformed(request) && doc.Some? && doc.value.version != ""
                                              && request.schemaVersion != "" && request.schemaVersion != doc.value.version)
      && (r == Rejected(CompatibilityLookupError) <==> InOrder(parse, request) && request.checkCompatibility
                                                       && LookupPrior(s, parse, request.schemaId, fetch).1.LookupError?)
      && (r.Registered? <==> InOrder(parse, request)
                             && !(request.checkCompatibility && LookupPrior(s, parse, request.schemaId, fetch).1.LookupError?))
  {
    MalformedIff(request);
  }

  /** A registration that is refused changes nothing: no reason for it leaves a trace. */
  lemma RefusedLeavesNoTrace(s: Registry, parse: Parser, request: RegisterRequest, fetch: Fetch, saved: bool, now: int)
    ensures Register(s, parse, request, fetch, saved, now).1.Rejected? ==> Register(s, parse, request, fetch, saved, now).0 == s
  {
  }

  /** What it is compared with: nothing unless asked for, and else the answer to a lookup of the latest before the registration. */
  lemma BaselineIsTheAnswer(s: Registry, parse: Parser, request: RegisterRequest, fetch: Fetch, saved: bool, now: int)
    requires s.store.Some? ==> OneLatest(s.store.value)
    ensures var r := Register(s, parse, request, fetch, saved, now).1;
      && (r.Registered? && !request.checkCompatibility ==> r.baseline == None)
      && (r.Registered? && request.checkCompatibility ==>
            && Answered(s, parse, request.schemaId, "", fetch, r.baseline)
            && (r.baseline == None ==> s.store == None))
      && (r == Rejected(CompatibilityLookupError) ==>
            Answered(s, parse, request.schemaId, "", fetch, None) && (fetch.Failed? || s.store.Some?))
  {
    PriorAnswers(s, parse, request.schemaId, fetch);
  }

  lemma CommitSettles(s: Registry, parse: Parser, request: RegisterRequest, saved: bool, now: int)
    requires Screened(parse, request).None?
    ensures var s', entry := Commit(s, parse, request, saved, now), EntryOf(parse, request);
      && StandsUnder(s.entries, s'.entries, request.schemaId, "", entry)
      && TracksNames(s.versions, s'.versions, request.schemaId, {parse(request.content).value.version})
      && s'.generator == s.generator[request.schemaId := request.content]
      && s'.store == if s.store.Some? && saved
                     then Some(WithSchema(s.store.value, request.schemaId, parse(request.content).value.version, request.content, now))
                     else s.store
  {
    SetSettles(s, request.schemaId, EntryOf(parse, request));
  }

  /** What an accepted registration leaves in cache, generator and store, on top of what its lookup of the prior schema did. */
  lemma RegisteredEffect(s: Registry, parse: Parser, request: RegisterRequest, fetch: Fetch, saved: bool, now: int)
    requires Register(s, parse, request, fetch, saved, now).1.Registered?
    ensures var (s', r) := Register(s, parse, request, fetch, saved, now);
      var before := if request.checkCompatibility then LookupPrior(s, parse, request.schemaId, fetch).0 else s;
      && parse(request.content).Some?
      && var version := parse(request.content).value.version;
      && Made(parse, request.content, version, r.entry)
      && StandsUnder(before.entries, s'.entries, request.schemaId, "", r.entry)
      && TracksNames(before.versions, s'.versions, request.schemaId, {version})
      && s'.generator == before.generator[request.schemaId := request.content]
      && (s.store.Some? && saved ==>
            s'.store.Some? && BecomesLatest(s.store.value, s'.store.value, request.schemaId, version, request.content, now))
      && (!(s.store.Some? && saved) ==> s'.store == s.store)
      && (r.unsaved <==> s.store.Some? && !saved)
  {
    var before := if request.checkCompatibility then LookupPrior(s, parse, request.schemaId, fetch).0 else s;
    assert before.store == s.store;
    CommitSettles(before, parse, request, saved, now);
    if s.store.Some? {
      WithSchemaBecomesLatest(s.store.value, request.schemaId, parse(request.content).value.version, request.content, now);
    }
  }

  /** Looking for the prior schema writes what a lookup of the latest writes, except that the store's answer is not cached. */
  lemma PriorSettles(s: Registry, parse: Parser, id: string, fetch: Fetch)
    ensures var (s', prior) := LookupPrior(s, parse, id, fetch);
      s' == if id !in s.entries && Usable(parse, fetch) then Lookup(s, parse, id, "", fetch).0 else s
  {
  }
}
