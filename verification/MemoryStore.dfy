/**
 The in-memory store: schema ID -> version -> record. Records are heap objects whose IsLatest
 flags SetSchema flips in place; view is the store read as plain values. Consumers stand beside it,
 under the same keys as in the cache.
 */
module MemoryStore {
  import opened Prelude
  import opened SchemaCache

  datatype Stored = Stored(content: string, registeredAt: int, latest: bool)

  type StoreView = map<string, map<string, Stored>>

  function VersionsIn(view: StoreView, id: string): map<string, Stored> {
    if id in view then view[id] else map[]
  }

  /** view after a schema is set: the new record is the latest, every other version of it is not. */
  function WithSchema(view: StoreView, id: string, version: string, content: string, at: int): StoreView {
    var others := map v | v in VersionsIn(view, id) :: VersionsIn(view, id)[v].(latest := false);
    view[id := others[version := Stored(content, at, true)]]
  }

  ghost predicate OneLatest(view: StoreView) {
    forall id, v, v' | id in view && v in view[id] && v' in view[id] && view[id][v].latest && view[id][v'].latest :: v == v'
  }

  ghost predicate IsLatest(view: StoreView, id: string, version: string) {
    id in view && version in view[id] && view[id][version].latest
  }

  ghost predicate IsBefore(view: StoreView, id: string, current: string, v: string) {
    && id in view && current in view[id] && v in view[id] && v != current
    && view[id][v].registeredAt < view[id][current].registeredAt
  }

  /** No version before current was registered after previous, which is one of them. */
  ghost predicate IsPrevious(view: StoreView, id: string, current: string, previous: string) {
    && IsBefore(view, id, current, previous)
    && forall v | IsBefore(view, id, current, v) :: view[id][v].registeredAt <= view[id][previous].registeredAt
  }

  ghost predicate OnlyEmptyIsPrevious(view: StoreView, id: string, current: string) {
    IsPrevious(view, id, current, "") && forall v | IsPrevious(view, id, current, v) :: v == ""
  }

  /** Where a version is before current, one is its previous: the latest of those among versions, which hold v. */
  lemma {:induction false} SomeIsPrevious(view: StoreView, id: string, current: string, v: string, versions: set<string>)
    requires IsBefore(view, id, current, v)
    requires forall u | IsBefore(view, id, current, u) && u !in versions :: view[id][u].registeredAt <= view[id][v].registeredAt
    ensures exists u :: IsPrevious(view, id, current, u)
    decreases versions
  {
    if u :| u in versions && IsBefore(view, id, current, u) && view[id][u].registeredAt > view[id][v].registeredAt {
      SomeIsPrevious(view, id, current, u, versions - {u});
    } else {
      assert IsPrevious(view, id, current, v);
    }
  }

  lemma WithSchemaIsLatest(view: StoreView, id: string, version: string, content: string, at: int)
    requires OneLatest(view)
    ensures var view' := WithSchema(view, id, version, content, at);
      && OneLatest(view')
      && (forall v :: IsLatest(view', id, v) <==> v == version)
      && (forall id', v | id' != id :: IsLatest(view', id', v) <==> IsLatest(view, id', v))
  {
  }

  /** The record is the latest of its ID, no other is, and nothing else about any record changed. */
  ghost predicate BecomesLatest(before: StoreView, after: StoreView, id: string, version: string, content: string, now: int) {
    && id in after && version in after[id] && after[id][version] == Stored(content, now, true)
    && (forall v | v != version :: v in after[id] <==> id in before && v in before[id])
    && (forall v | v != version && v in after[id] ::
          after[id][v].content == before[id][v].content && after[id][v].registeredAt == before[id][v].registeredAt && !after[id][v].latest)
    && forall id' | id' != id :: (id' in after <==> id' in before) && (id' in before ==> after[id'] == before[id'])
  }

  lemma WithSchemaBecomesLatest(view: StoreView, id: string, version: string, content: string, now: int)
    ensures BecomesLatest(view, WithSchema(view, id, version, content, now), id, version, content, now)
  {
  }

  class SchemaRecord {
    const schemaId: string
    const version: string
    const content: string
    const registeredAt: int
    var isLatest: bool

    constructor (schemaId: string, version: string, content: string, registeredAt: int)
      ensures this.schemaId == schemaId && this.version == version
      ensures this.content == content && this.registeredAt == registeredAt
    {
      this.schemaId, this.version, this.content, this.registeredAt := schemaId, version, content, registeredAt;
      isLatest := false;
    }
  }

  function RecordsOf(schemas: map<string, map<string, SchemaRecord>>, id: string): map<string, SchemaRecord> {
    if id in schemas then schemas[id] else map[]
  }

  /** Records stand under their own ID and version, and view is what they held before the flags under cleared were taken away. */
  ghost predicate Tallies(records: set<SchemaRecord>, schemas: map<string, map<string, SchemaRecord>>, view: StoreView, cleared: Option<string>)
    reads records
  {
    && view.Keys == schemas.Keys
    && (forall id | id in schemas :: view[id].Keys == schemas[id].Keys)
    && (forall id, v | id in schemas && v in schemas[id] ::
          && schemas[id][v] in records && schemas[id][v].schemaId == id && schemas[id][v].version == v
          && schemas[id][v].content == view[id][v].content && schemas[id][v].registeredAt == view[id][v].registeredAt
          && schemas[id][v].isLatest == (view[id][v].latest && cleared != Some(id)))
  }

  lemma TalliesAfterSet(records: set<SchemaRecord>, schemas: map<string, map<string, SchemaRecord>>, view: StoreView, record: SchemaRecord)
    requires Tallies(records, schemas, view, Some(record.schemaId)) && record.isLatest
    ensures Tallies(records + {record}, schemas[record.schemaId := RecordsOf(schemas, record.schemaId)[record.version := record]],
                    WithSchema(view, record.schemaId, record.version, record.content, record.registeredAt), None)
  {
  }

  class MemoryStore {
    var schemas: map<string, map<string, SchemaRecord>>
    /** The store read as plain values. */
    ghost var view: StoreView
    /** The records it ever took. */
    ghost var Repr: set<SchemaRecord>
    var consumers: map<string, ConsumerEntry>

    /** view is the records' contents, and no ID has two latest records. */
    ghost predicate Valid()
      reads this, Repr
    {
      Tallies(Repr, schemas, view, None) && OneLatest(view)
    }

    constructor ()
      ensures Valid() && view == map[] && Repr == {} && consumers == map[]
    {
      schemas, view, Repr, consumers := map[], map[], {}, map[];
    }

    /** Marks every version of id as not the latest. */
    method ClearLatest(id: string)
      requires Valid()
      modifies Repr`isLatest
      ensures Tallies(Repr, schemas, view, Some(id))
    {
      var versions := RecordsOf(schemas, id);
      var todo := versions.Keys;
      while todo != {}
        invariant todo <= versions.Keys
        invariant forall v | v in versions :: versions[v].isLatest == (v in todo && old(versions[v].isLatest))
        invariant forall r | r in Repr && r.schemaId != id :: r.isLatest == old(r.isLatest)
      {
        var v :| v in todo;
        todo := todo - {v};
        assert versions[v] in Repr;
        versions[v].isLatest := false;
      }
    }

    /** Each call hands over a record of its own. */
    method SetSchema(record: SchemaRecord)
      requires Valid() && record !in Repr
      modifies this`schemas, this`view, this`Repr, Repr`isLatest, record`isLatest
      ensures Valid()
      ensures view == WithSchema(old(view), record.schemaId, record.version, record.content, record.registeredAt)
      ensures Repr == old(Repr) + {record}
      ensures BecomesLatest(old(view), view, record.schemaId, record.version, record.content, record.registeredAt)
    {
      var id := record.schemaId;
      ghost var before := schemas;
      ClearLatest(id);
      assert Tallies(Repr, before, view, Some(id));
      record.isLatest := true;
      schemas := schemas[id := RecordsOf(schemas, id)[record.version := record]];
      TalliesAfterSet(Repr, before, view, record);
      Repr := Repr + {record};
      WithSchemaIsLatest(view, id, record.version, record.content, record.registeredAt);
      WithSchemaBecomesLatest(view, id, record.version, record.content, record.registeredAt);
      view := WithSchema(view, id, record.version, record.content, record.registeredAt);
    }

    method GetSchema(id: string) returns (record: Option<SchemaRecord>)
      requires Valid()
      ensures record.Some? ==>
        && record.value in Repr && record.value.schemaId == id
        && IsLatest(view, id, record.value.version)
        && view[id][record.value.version] == Stored(record.value.content, record.value.registeredAt, true)
      ensures record.None? ==> forall v :: !IsLatest(view, id, v)
    {
      if id !in schemas {
        return None;
      }
      var todo := schemas[id].Keys;
      while todo != {}
        invariant todo <= schemas[id].Keys
        invariant forall v | v in schemas[id].Keys - todo :: !schemas[id][v].isLatest
      {
        var v :| v in todo;
        todo := todo - {v};
        if schemas[id][v].isLatest {
          return Some(schemas[id][v]);
        }
      }
      record := None;
    }

    method GetSchemaVersion(id: string, version: string) returns (record: Option<SchemaRecord>)
      requires Valid()
      ensures record.Some? <==> id in view && version in view[id]
      ensures record.Some? ==>
        && record.value in Repr && record.value.schemaId == id && record.value.version == version
        && view[id][version] == Stored(record.value.content, record.value.registeredAt, record.value.isLatest)
    {
      if id !in schemas || version !in schemas[id] {
        return None;
      }
      record := Some(schemas[id][version]);
    }

    method DeleteSchema(id: string) returns (found: bool)
      requires Valid()
      modifies this`schemas, this`view
      ensures Valid() && view == old(view) - {id} && Repr == old(Repr)
      ensures found <==> id in old(view)
    {
      found := id in schemas;
      schemas := schemas - {id};
      view := view - {id};
    }

    method DeleteSchemaVersion(id: string, version: string) returns (found: bool)
      requires Valid()
      modifies this`schemas, this`view
      ensures Valid() && Repr == old(Repr)
      ensures found <==> id in old(view) && version in old(view)[id]
      ensures view == if found then old(view)[id := old(view)[id] - {version}] else old(view)
    {
      found := id in schemas && version in schemas[id];
      if found {
        schemas := schemas[id := schemas[id] - {version}];
        view := view[id := view[id] - {version}];
      }
    }

    /**
     The version registered last before current. The answer is right except where the empty version is
     the only right one: "" stands for "none yet" while searching.
     */
    method GetPreviousVersion(id: string, current: string) returns (previous: Option<string>)
      requires Valid()
      ensures previous.Some? ==> IsBefore(view, id, current, previous.value) && previous.value != ""
      ensures (if previous.Some? then IsPrevious(view, id, current, previous.value) else forall v :: !IsPrevious(view, id, current, v))
         <==> !OnlyEmptyIsPrevious(view, id, current)
    {
      if id !in schemas || current !in schemas[id] {
        return None;
      }
      var versions := schemas[id];
      var now := versions[current].registeredAt;
      var best, bestTime := "", 0;
      ghost var right := if v :| v != "" && IsPrevious(view, id, current, v) then v else "";
      var todo := versions.Keys;
      while todo != {}
        invariant todo <= versions.Keys
        invariant best != "" ==> IsBefore(view, id, current, best) && versions[best].registeredAt == bestTime
        invariant right != "" && right !in todo ==> best != "" && bestTime == versions[right].registeredAt
      {
        var v :| v in todo;
        todo := todo - {v};
        if v != current && versions[v].registeredAt < now {
          if best == "" || versions[v].registeredAt > bestTime {
            best, bestTime := v, versions[v].registeredAt;
          }
        }
      }
      previous := if best == "" then None else Some(best);
      if v :| IsBefore(view, id, current, v) {
        SomeIsPrevious(view, id, current, v, view[id].Keys);
      }
    }

    /** Keeps the registration time of a record it replaces. */
    method RegisterConsumer(entry: ConsumerEntry)
      modifies this`consumers
      ensures consumers == WithConsumer(old(consumers), entry)
      ensures var key := entry.consumerId + "/" + entry.schemaId + "/" + entry.environment;
        consumers == old(consumers)[key := entry.(registeredAt :=
          if key in old(consumers) then old(consumers)[key].registeredAt else entry.registeredAt)]
    {
      var key := ConsumerKey(entry.consumerId, entry.schemaId, entry.environment);
      var record := entry;
      if key in consumers {
        record := record.(registeredAt := consumers[key].registeredAt);
      }
      consumers := consumers[key := record];
    }
  }

  /** The registration times along a walk of GetPreviousVersion. */
  ghost predicate IsWalk(view: StoreView, id: string, walk: seq<string>) {
    forall i | 0 <= i < |walk| - 1 :: IsPrevious(view, id, walk[i], walk[i + 1])
  }

  /** No version was registered between a version and its previous one. */
  lemma NothingBetween(view: StoreView, id: string, current: string, previous: string)
    requires IsPrevious(view, id, current, previous)
    ensures id in view && current in view[id] && previous in view[id]
    ensures view[id][previous].registeredAt < view[id][current].registeredAt
    ensures forall v | v in view[id] ::
      view[id][v].registeredAt <= view[id][previous].registeredAt || view[id][current].registeredAt <= view[id][v].registeredAt
  {
    forall v | v in view[id] && view[id][v].registeredAt < view[id][current].registeredAt
      ensures view[id][v].registeredAt <= view[id][previous].registeredAt
    {
      assert IsBefore(view, id, current, v);
    }
  }

  lemma WalkGoesBack(view: StoreView, id: string, walk: seq<string>)
    requires |walk| > 1 && IsWalk(view, id, walk)
    ensures IsBefore(view, id, walk[0], walk[1]) && IsWalk(view, id, walk[1..])
  {
    assert IsPrevious(view, id, walk[0], walk[1]);
    forall i | 0 <= i < |walk[1..]| - 1 ensures IsPrevious(view, id, walk[1..][i], walk[1..][i + 1]) {
      assert IsPrevious(view, id, walk[i + 1], walk[i + 2]);
    }
  }

  lemma VisitsOneMore(first: string, rest: seq<string>)
    requires first !in rest
    ensures (set v | v in [first] + rest) == {first} + (set v | v in rest)
    ensures |set v | v in [first] + rest| == 1 + |set v | v in rest|
  {
    assert (set v | v in [first] + rest) == {first} + (set v | v in rest);
  }

  /** Following GetPreviousVersion goes strictly back in time, so a walk visits each version at most once and ends. */
  lemma {:induction false} PreviousWalkEnds(view: StoreView, id: string, walk: seq<string>)
    requires id in view && |walk| > 0 && walk[0] in view[id] && IsWalk(view, id, walk)
    ensures forall v | v in walk :: v in view[id] && view[id][v].registeredAt <= view[id][walk[0]].registeredAt
    ensures |set v | v in walk| == |walk|
    ensures |walk| <= |view[id]|
  {
    var visited := set v | v in walk;
    if |walk| == 1 {
      assert visited == {walk[0]};
    } else {
      WalkGoesBack(view, id, walk);
      PreviousWalkEnds(view, id, walk[1..]);
      assert walk == [walk[0]] + walk[1..];
      VisitsOneMore(walk[0], walk[1..]);
    }
    assert visited <= view[id].Keys;
    SubsetIsSmaller(visited, view[id].Keys);
  }

  datatype StoreOp =
    | SetOp(id: string, version: string, content: string, at: int)
    | DeleteOp(id: string)
    | DeleteVersionOp(id: string, version: string)

  function Apply(view: StoreView, op: StoreOp): StoreView {
    match op
    case SetOp(id, version, content, at) => WithSchema(view, id, version, content, at)
    case DeleteOp(id) => view - {id}
    case DeleteVersionOp(id, version) => if id in view then view[id := view[id] - {version}] else view
  }

  function Run(view: StoreView, ops: seq<StoreOp>): StoreView {
    if ops == [] then view else Apply(Run(view, ops[..|ops| - 1]), ops[|ops| - 1])
  }

  /** The op neither sets id again, nor deletes it, nor deletes that version of it. */
  predicate Spares(op: StoreOp, id: string, version: string) {
    op.id != id || (op.DeleteVersionOp? && op.version != version)
  }

  /** Over any run, the record set last stays the latest, the only one, until its ID is set again or it is deleted. */
  lemma {:induction false} LatestStays(view: StoreView, id: string, version: string, content: string, at: int, ops: seq<StoreOp>)
    requires OneLatest(view) && forall op | op in ops :: Spares(op, id, version)
    ensures var view' := Run(WithSchema(view, id, version, content, at), ops);
      && OneLatest(view')
      && IsLatest(view', id, version)
      && view'[id][version] == Stored(content, at, true)
  {
    WithSchemaIsLatest(view, id, version, content, at);
    if ops != [] {
      var rest, op := ops[..|ops| - 1], ops[|ops| - 1];
      assert ops == rest + [op];
      LatestStays(view, id, version, content, at, rest);
      var before := Run(WithSchema(view, id, version, content, at), rest);
      assert Spares(op, id, version);
      if op.SetOp? {
        WithSchemaIsLatest(before, op.id, op.version, op.content, op.at);
      }
    }
  }
}
