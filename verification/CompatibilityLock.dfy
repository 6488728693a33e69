/**
 Concurrent checked registrations: each takes its schema ID's lock, looks up the prior version,
 compares, writes cache and store, and unlocks. Steps of any number of calls interleave freely and
 the cache may drop any key between any two of them.
 */
module CompatibilityLock {
  import opened Prelude
  import opened Strings

  datatype Schema = Schema(version: string, content: string)

  /** Where a call stands; prior is the schema it was compared with. */
  datatype Stage =
    | Waiting
    | Holding
    | CacheMissed
    | Compared(prior: Schema)
    | BareWritten(prior: Schema)
    | VersionWritten(prior: Schema)
    | StoreWritten(prior: Schema)
    | Done(registered: bool)

  datatype Call = Call(id: string, schema: Schema, stage: Stage)

  /** One committed registration: what it was compared with, and what it stored. */
  datatype Commit = Commit(prior: Schema, next: Schema)

  /** Calls by number, lock holders by ID, cache by key, the store's latest record and the commits by ID. */
  datatype State = State(
    calls: map<nat, Call>,
    holders: map<string, nat>,
    cache: map<string, Schema>,
    latest: map<string, Schema>,
    log: map<string, seq<Commit>>)

  datatype Action =
    | Acquire | ReadCache | ReadStore | Abort | WriteBareKey | WriteVersionedKey | WriteStore | Release

  /** Fill is a read-through refill by an unpinned lookup, which takes no lock. */
  datatype Step =
    | Begin(call: nat, id: string, schema: Schema)
    | Advance(call: nat, action: Action)
    | Evict(key: string)
    | Fill(id: string)

  function Commits(log: map<string, seq<Commit>>, id: string): seq<Commit> {
    if id in log then log[id] else []
  }

  function Latest(latest: map<string, Schema>, id: string): Option<Schema> {
    if id in latest then Some(latest[id]) else None
  }

  function At(s: State, call: nat, stage: Stage): State
    requires call in s.calls
  {
    s.(calls := s.calls[call := s.calls[call].(stage := stage)])
  }

  /** The deferred unlock. */
  function Finish(s: State, call: nat, registered: bool): State
    requires call in s.calls
  {
    At(s, call, Done(registered)).(holders := s.holders - {s.calls[call].id})
  }

  /** One step of a call; a step that is not enabled changes nothing. */
  function Advanced(s: State, call: nat, action: Action): State
    requires call in s.calls
  {
    var c := s.calls[call];
    match action
    case Acquire =>
      if c.stage.Waiting? && c.id !in s.holders
      then At(s, call, Holding).(holders := s.holders[c.id := call]) else s
    case ReadCache =>
      if c.stage.Holding?
      then At(s, call, if c.id in s.cache then Compared(s.cache[c.id]) else CacheMissed) else s
    case ReadStore =>
      if !c.stage.CacheMissed? then s
      else if c.id in s.latest then At(s, call, Compared(s.latest[c.id])) else Finish(s, call, false)
    case Abort =>
      if c.stage.Compared? then Finish(s, call, false) else s
    case WriteBareKey =>
      if c.stage.Compared?
      then At(s, call, BareWritten(c.stage.prior)).(cache := s.cache[c.id := c.schema]) else s
    case WriteVersionedKey =>
      if c.stage.BareWritten?
      then At(s, call, VersionWritten(c.stage.prior)).(cache := s.cache[VersionedKey(c.id, c.schema.version) := c.schema])
      else s
    case WriteStore =>
      if c.stage.VersionWritten?
      then At(s, call, StoreWritten(c.stage.prior)).(
        latest := s.latest[c.id := c.schema],
        log := s.log[c.id := Commits(s.log, c.id) + [Commit(c.stage.prior, c.schema)]])
      else s
    case Release =>
      if c.stage.StoreWritten? then Finish(s, call, true) else s
  }

  function Apply(s: State, step: Step): State {
    match step
    case Begin(call, id, schema) =>
      if call in s.calls then s else s.(calls := s.calls[call := Call(id, schema, Waiting)])
    case Advance(call, action) =>
      if call in s.calls then Advanced(s, call, action) else s
    case Evict(key) => s.(cache := s.cache - {key})
    case Fill(id) =>
      if id !in s.cache && id in s.latest then s.(cache := s.cache[id := s.latest[id]]) else s
  }

  function Run(s: State, steps: seq<Step>): State
    decreases |steps|
  {
    if steps == [] then s else Run(Apply(s, steps[0]), steps[1..])
  }

  /** The service as it starts serving: any cache that agrees with the store. */
  ghost predicate Starts(start: map<string, Schema>, s: State) {
    && s.calls == map[] && s.holders == map[] && s.log == map[] && s.latest == start
    && forall id | '@' !in id && id in s.cache :: id in start && s.cache[id] == start[id]
  }

  /** Stages at which the bare key already belongs to the call's own schema. */
  predicate Ahead(stage: Stage) {
    stage.BareWritten? || stage.VersionWritten?
  }

  /** A refill of id brings back nothing stale: it finds the key cached or the store empty, or no call holding
      the ID's lock has written the bare key but not yet the store, or what it would write is in the store already. */
  predicate HarmlessFill(s: State, id: string) {
    || id in s.cache || id !in s.latest || id !in s.holders || s.holders[id] !in s.calls
    || !Ahead(s.calls[s.holders[id]].stage) || s.latest[id] == s.calls[s.holders[id]].schema
  }

  predicate Allowed(s: State, step: Step) {
    match step
    case Begin(_, id, _) => '@' !in id
    case Fill(id) => '@' in id || HarmlessFill(s, id)
    case _ => true
  }

  /** Every step is allowed in the state it is taken in. */
  ghost predicate AllowedRun(s: State, steps: seq<Step>)
    decreases |steps|
  {
    steps == [] || (Allowed(s, steps[0]) && AllowedRun(Apply(s, steps[0]), steps[1..]))
  }

  /** The schema in force before the k-th commit: the one committed before it, or the one there at the start. */
  function InForce(start: map<string, Schema>, id: string, commits: seq<Commit>, k: nat): Option<Schema>
    requires k <= |commits|
  {
    if k > 0 then Some(commits[k - 1].next) else if id in start then Some(start[id]) else None
  }

  function LastCommitted(start: map<string, Schema>, log: map<string, seq<Commit>>, id: string): Option<Schema> {
    InForce(start, id, Commits(log, id), |Commits(log, id)|)
  }

  /** Each commit was compared with the schema committed immediately before it. */
  ghost predicate UnbrokenChain(start: map<string, Schema>, id: string, commits: seq<Commit>) {
    forall k | 0 <= k < |commits| :: InForce(start, id, commits, k) == Some(commits[k].prior)
  }

  // ---- The invariant ----------------------------------------------------------------------

  predicate Critical(stage: Stage) {
    !stage.Waiting? && !stage.Done?
  }

  predicate Judged(stage: Stage) {
    stage.Compared? || stage.BareWritten? || stage.VersionWritten?
  }

  /** The lock of an ID is held exactly by its one call in the critical section. */
  ghost predicate Exclusive(s: State) {
    && (forall c | c in s.calls && Critical(s.calls[c].stage) ::
          s.calls[c].id in s.holders && s.holders[s.calls[c].id] == c)
    && (forall id | id in s.holders ::
          s.holders[id] in s.calls && s.calls[s.holders[id]].id == id && Critical(s.calls[s.holders[id]].stage))
  }

  /** What the bare key of an @-free ID may hold: the last commit, or the schema its lock holder is about to commit. */
  ghost predicate BareKeyIs(start: map<string, Schema>, s: State, id: string, schema: Schema) {
    if id in s.holders && s.holders[id] in s.calls && Ahead(s.calls[s.holders[id]].stage)
    then schema == s.calls[s.holders[id]].schema
    else Some(schema) == LastCommitted(start, s.log, id)
  }

  ghost predicate StoreAgrees(start: map<string, Schema>, s: State) {
    forall id :: Latest(s.latest, id) == LastCommitted(start, s.log, id)
  }

  ghost predicate CacheAgrees(start: map<string, Schema>, s: State) {
    forall id | '@' !in id && id in s.cache :: BareKeyIs(start, s, id, s.cache[id])
  }

  ghost predicate PriorsAgree(start: map<string, Schema>, s: State) {
    forall c | c in s.calls && Judged(s.calls[c].stage) ::
      Some(s.calls[c].stage.prior) == LastCommitted(start, s.log, s.calls[c].id)
  }

  ghost predicate Invariant(start: map<string, Schema>, s: State) {
    && (forall c | c in s.calls :: '@' !in s.calls[c].id)
    && Exclusive(s) && StoreAgrees(start, s) && CacheAgrees(start, s) && PriorsAgree(start, s)
    && (forall id :: UnbrokenChain(start, id, Commits(s.log, id)))
  }

  lemma AcquireKeepsExclusive(s: State, call: nat)
    requires Exclusive(s) && call in s.calls
    ensures Exclusive(Advanced(s, call, Acquire))
  {
  }

  lemma FinishKeepsExclusive(s: State, call: nat, registered: bool)
    requires Exclusive(s) && call in s.calls && Critical(s.calls[call].stage)
    ensures Exclusive(Finish(s, call, registered))
  {
  }

  lemma AdvanceKeepsExclusive(s: State, call: nat, action: Action)
    requires Exclusive(s) && call in s.calls
    ensures Exclusive(Advanced(s, call, action))
  {
    if action.Acquire? {
      AcquireKeepsExclusive(s, call);
    } else if Critical(s.calls[call].stage) {
      FinishKeepsExclusive(s, call, false);
      FinishKeepsExclusive(s, call, true);
    }
  }

  /** Only the store write commits. */
  lemma LastCommittedAfter(start: map<string, Schema>, s: State, call: nat, action: Action, id: string)
    requires call in s.calls
    ensures var c := s.calls[call];
      LastCommitted(start, Advanced(s, call, action).log, id)
        == if action.WriteStore? && c.stage.VersionWritten? && c.id == id then Some(c.schema)
           else LastCommitted(start, s.log, id)
  {
    assert action.WriteStore? || Advanced(s, call, action).log == s.log;
  }

  lemma AdvanceKeepsStore(start: map<string, Schema>, s: State, call: nat, action: Action)
    requires StoreAgrees(start, s) && call in s.calls
    ensures StoreAgrees(start, Advanced(s, call, action))
  {
    var s' := Advanced(s, call, action);
    forall id ensures Latest(s'.latest, id) == LastCommitted(start, s'.log, id) {
      LastCommittedAfter(start, s, call, action, id);
      assert Latest(s.latest, id) == LastCommitted(start, s.log, id);
    }
  }

  lemma OwnPriorIsLast(start: map<string, Schema>, s: State, call: nat, action: Action)
    requires call in s.calls && Exclusive(s) && Judged(Advanced(s, call, action).calls[call].stage)
    requires var c := s.calls[call];
      && Latest(s.latest, c.id) == LastCommitted(start, s.log, c.id)
      && (c.id in s.cache ==> BareKeyIs(start, s, c.id, s.cache[c.id]))
      && (Judged(c.stage) ==> Some(c.stage.prior) == LastCommitted(start, s.log, c.id))
    ensures Some(Advanced(s, call, action).calls[call].stage.prior) == LastCommitted(start, s.log, s.calls[call].id)
  {
  }

  lemma OtherPriorIsLast(start: map<string, Schema>, s: State, call: nat, action: Action, d: nat)
    requires call in s.calls && d in s.calls && d != call && Exclusive(s) && Judged(s.calls[d].stage)
    requires Some(s.calls[d].stage.prior) == LastCommitted(start, s.log, s.calls[d].id)
    ensures Some(s.calls[d].stage.prior) == LastCommitted(start, Advanced(s, call, action).log, s.calls[d].id)
  {
    LastCommittedAfter(start, s, call, action, s.calls[d].id);
  }

  /** A call touches no other @-free ID. */
  lemma OtherIdsUntouched(s: State, call: nat, action: Action, id: string)
    requires call in s.calls && s.calls[call].id != id && '@' !in id
    ensures var s' := Advanced(s, call, action);
      && (id in s'.cache <==> id in s.cache) && (id in s.cache ==> s'.cache[id] == s.cache[id])
      && (id in s'.holders <==> id in s.holders) && (id in s.holders ==> s'.holders[id] == s.holders[id])
      && Commits(s'.log, id) == Commits(s.log, id)
  {
    VersionedKeyIsNotBare(s.calls[call].id, s.calls[call].schema.version, id);
  }

  lemma AdvanceKeepsOwnBareKey(start: map<string, Schema>, s: State, call: nat, action: Action)
    requires call in s.calls && Exclusive(s)
    requires var id := s.calls[call].id;
      && '@' !in id && id in Advanced(s, call, action).cache
      && (id in s.cache ==> BareKeyIs(start, s, id, s.cache[id]))
    ensures var id := s.calls[call].id;
      BareKeyIs(start, Advanced(s, call, action), id, Advanced(s, call, action).cache[id])
  {
    var c := s.calls[call];
    VersionedKeyIsNotBare(c.id, c.schema.version, c.id);
    LastCommittedAfter(start, s, call, action, c.id);
  }

  lemma AdvanceKeepsBareKey(start: map<string, Schema>, s: State, call: nat, action: Action, id: string)
    requires call in s.calls && Exclusive(s) && '@' !in id && id in Advanced(s, call, action).cache
    requires id in s.cache ==> BareKeyIs(start, s, id, s.cache[id])
    ensures BareKeyIs(start, Advanced(s, call, action), id, Advanced(s, call, action).cache[id])
  {
    if s.calls[call].id == id {
      AdvanceKeepsOwnBareKey(start, s, call, action);
    } else {
      OtherIdsUntouched(s, call, action, id);
    }
  }

  lemma AdvanceKeepsCache(start: map<string, Schema>, s: State, call: nat, action: Action)
    requires call in s.calls && Exclusive(s) && CacheAgrees(start, s)
    ensures CacheAgrees(start, Advanced(s, call, action))
  {
    forall id | '@' !in id && id in Advanced(s, call, action).cache
      ensures BareKeyIs(start, Advanced(s, call, action), id, Advanced(s, call, action).cache[id])
    {
      AdvanceKeepsBareKey(start, s, call, action, id);
    }
  }

  lemma AdvanceKeepsPriors(start: map<string, Schema>, s: State, call: nat, action: Action)
    requires call in s.calls && '@' !in s.calls[call].id
    requires Exclusive(s) && StoreAgrees(start, s) && CacheAgrees(start, s) && PriorsAgree(start, s)
    ensures PriorsAgree(start, Advanced(s, call, action))
  {
    var c, s' := s.calls[call], Advanced(s, call, action);
    assert Latest(s.latest, c.id) == LastCommitted(start, s.log, c.id);
    forall d | d in s'.calls && Judged(s'.calls[d].stage)
      ensures Some(s'.calls[d].stage.prior) == LastCommitted(start, s'.log, s'.calls[d].id)
    {
      if d == call {
        OwnPriorIsLast(start, s, call, action);
        LastCommittedAfter(start, s, call, action, c.id);
      } else {
        assert s'.calls[d] == s.calls[d];
        OtherPriorIsLast(start, s, call, action, d);
      }
    }
  }

  lemma ChainExtends(start: map<string, Schema>, id: string, commits: seq<Commit>, commit: Commit)
    requires UnbrokenChain(start, id, commits) && InForce(start, id, commits, |commits|) == Some(commit.prior)
    ensures UnbrokenChain(start, id, commits + [commit])
  {
    var longer := commits + [commit];
    forall k | 0 <= k < |longer| ensures InForce(start, id, longer, k) == Some(longer[k].prior) {
      assert InForce(start, id, longer, k) == InForce(start, id, commits, k);
    }
  }

  lemma AdvanceKeepsChains(start: map<string, Schema>, s: State, call: nat, action: Action, id: string)
    requires PriorsAgree(start, s) && call in s.calls && UnbrokenChain(start, id, Commits(s.log, id))
    ensures UnbrokenChain(start, id, Commits(Advanced(s, call, action).log, id))
  {
    var c := s.calls[call];
    if action.WriteStore? && c.stage.VersionWritten? && c.id == id {
      assert Some(c.stage.prior) == LastCommitted(start, s.log, id);
      ChainExtends(start, id, Commits(s.log, id), Commit(c.stage.prior, c.schema));
    } else {
      assert Commits(Advanced(s, call, action).log, id) == Commits(s.log, id);
    }
  }

  lemma AdvanceKeepsInvariant(start: map<string, Schema>, s: State, call: nat, action: Action)
    requires Invariant(start, s) && call in s.calls
    ensures Invariant(start, Advanced(s, call, action))
  {
    AdvanceKeepsExclusive(s, call, action);
    AdvanceKeepsStore(start, s, call, action);
    AdvanceKeepsCache(start, s, call, action);
    AdvanceKeepsPriors(start, s, call, action);
    forall id {
      AdvanceKeepsChains(start, s, call, action, id);
    }
  }

  lemma BeginKeepsInvariant(start: map<string, Schema>, s: State, call: nat, id: string, schema: Schema)
    requires Invariant(start, s) && '@' !in id && call !in s.calls
    ensures Invariant(start, s.(calls := s.calls[call := Call(id, schema, Waiting)]))
  {
  }

  lemma FillKeepsCacheIff(start: map<string, Schema>, s: State, id: string)
    requires StoreAgrees(start, s) && CacheAgrees(start, s) && '@' !in id
    ensures CacheAgrees(start, Apply(s, Fill(id))) <==> HarmlessFill(s, id)
  {
    var s' := Apply(s, Fill(id));
    assert Latest(s.latest, id) == LastCommitted(start, s.log, id);
    if s' != s {
      assert s'.cache[id] == s.latest[id];
      assert BareKeyIs(start, s', id, s'.cache[id]) <==> HarmlessFill(s, id);
    }
  }

  /** A read-through refill keeps the invariant exactly when it is harmless. */
  lemma FillKeepsInvariantIff(start: map<string, Schema>, s: State, id: string)
    requires Invariant(start, s) && '@' !in id
    ensures Invariant(start, Apply(s, Fill(id))) <==> HarmlessFill(s, id)
  {
    FillKeepsCacheIff(start, s, id);
    var s' := Apply(s, Fill(id));
    assert s' == s.(cache := s'.cache);
    assert Exclusive(s') && StoreAgrees(start, s') && PriorsAgree(start, s');
  }

  lemma StepKeepsInvariant(start: map<string, Schema>, s: State, step: Step)
    requires Invariant(start, s) && Allowed(s, step)
    ensures Invariant(start, Apply(s, step))
  {
    if step.Advance? && step.call in s.calls {
      AdvanceKeepsInvariant(start, s, step.call, step.action);
    } else if step.Begin? && step.call !in s.calls {
      BeginKeepsInvariant(start, s, step.call, step.id, step.schema);
    } else if step.Fill? && '@' !in step.id {
      FillKeepsInvariantIff(start, s, step.id);
    }
  }

  lemma {:induction false} RunKeepsInvariant(start: map<string, Schema>, s: State, steps: seq<Step>)
    requires Invariant(start, s) && AllowedRun(s, steps)
    ensures Invariant(start, Run(s, steps))
    decreases |steps|
  {
    if steps != [] {
      StepKeepsInvariant(start, s, steps[0]);
      RunKeepsInvariant(start, Apply(s, steps[0]), steps[1..]);
    }
  }

  /**
   In every interleaving of checked registrations of @-free IDs, with evictions anywhere and refills that are harmless, each
   registration is compared with exactly the schema committed immediately before it for its ID.
   */
  lemma ReportsFormAnUnbrokenChain(start: map<string, Schema>, s: State, steps: seq<Step>, id: string)
    requires Starts(start, s) && AllowedRun(s, steps)
    ensures UnbrokenChain(start, id, Commits(Run(s, steps).log, id))
  {
    RunKeepsInvariant(start, s, steps);
  }

  lemma {:induction false} RunKeepsExclusive(s: State, steps: seq<Step>)
    requires Exclusive(s)
    ensures Exclusive(Run(s, steps))
    decreases |steps|
  {
    if steps != [] {
      if steps[0].Advance? && steps[0].call in s.calls {
        AdvanceKeepsExclusive(s, steps[0].call, steps[0].action);
      }
      RunKeepsExclusive(Apply(s, steps[0]), steps[1..]);
    }
  }

  /** At most one call per ID is between its lookup of the prior version and its unlock, whatever else happens. */
  lemma CriticalSectionsExclude(start: map<string, Schema>, s: State, steps: seq<Step>, a: nat, b: nat)
    requires Starts(start, s)
    requires var calls := Run(s, steps).calls;
      && a in calls && b in calls && calls[a].id == calls[b].id
      && !calls[a].stage.Waiting? && !calls[a].stage.Done? && !calls[b].stage.Waiting? && !calls[b].stage.Done?
    ensures a == b
  {
    RunKeepsExclusive(s, steps);
  }

  /** Whenever no call holds the lock of an @-free ID, its cached schema is the store's latest. */
  lemma UnlockedCacheIsLatest(start: map<string, Schema>, s: State, steps: seq<Step>, id: string)
    requires Starts(start, s) && AllowedRun(s, steps)
    requires var now := Run(s, steps); '@' !in id && id !in now.holders && id in now.cache
    ensures var now := Run(s, steps); id in now.latest && now.cache[id] == now.latest[id]
  {
    RunKeepsInvariant(start, s, steps);
  }

  lemma Then(s: State, step: Step, rest: seq<Step>, s': State)
    requires Apply(s, step) == s'
    ensures Run(s, [step] + rest) == Run(s', rest)
  {
    assert ([step] + rest)[1..] == rest;
  }

  /** Between Begin and Release the call takes every one of its steps, and nothing else happens. */
  function WholeCall(call: nat, id: string, schema: Schema): seq<Step> {
    [Begin(call, id, schema)] + LookupSteps(call) + WriteSteps(call)
  }

  function LookupSteps(call: nat): seq<Step> {
    [Advance(call, Acquire), Advance(call, ReadCache), Advance(call, ReadStore)]
  }

  lemma {:induction false} RunJoins(s: State, a: seq<Step>, b: seq<Step>)
    ensures Run(s, a + b) == Run(Run(s, a), b)
    decreases |a|
  {
    if a == [] {
      assert a + b == b;
    } else {
      assert (a + b)[1..] == a[1..] + b;
      RunJoins(Apply(s, a[0]), a[1..], b);
    }
  }

  lemma FourSteps(s: State, a: Step, b: Step, c: Step, d: Step)
    ensures Run(s, [a, b, c]) == Apply(Apply(Apply(s, a), b), c)
    ensures Run(s, [a, b, c, d]) == Apply(Apply(Apply(Apply(s, a), b), c), d)
  {
    Then(s, a, [b, c], Apply(s, a));
    Then(Apply(s, a), b, [c], Apply(Apply(s, a), b));
    Then(Apply(Apply(s, a), b), c, [], Apply(Apply(Apply(s, a), b), c));
    RunJoins(s, [a, b, c], [d]);
    Then(Apply(Apply(Apply(s, a), b), c), d, [], Apply(Apply(Apply(Apply(s, a), b), c), d));
    assert [a, b, c] + [d] == [a, b, c, d] == [a] + [b, c, d];
    assert [a, b, c] == [a] + [b, c] && [b, c] == [b] + [c] && [c] == [c] + [] && [d] == [d] + [];
  }

  /** What a call that began while its ID was unlocked is compared with: the cached schema, or else the stored one. */
  lemma LookupsAlone(s: State, call: nat, id: string, schema: Schema)
    requires call in s.calls && s.calls[call] == Call(id, schema, Waiting) && id !in s.holders
    ensures Run(s, LookupSteps(call)) ==
      if id in s.cache then s.(calls := s.calls[call := Call(id, schema, Compared(s.cache[id]))], holders := s.holders[id := call])
      else if id in s.latest then s.(calls := s.calls[call := Call(id, schema, Compared(s.latest[id]))], holders := s.holders[id := call])
      else s.(calls := s.calls[call := Call(id, schema, Done(false))])
  {
    var held := s.(calls := s.calls[call := Call(id, schema, Holding)], holders := s.holders[id := call]);
    var read := held.(calls := s.calls[call := Call(id, schema, if id in s.cache then Compared(s.cache[id]) else CacheMissed)]);
    FourSteps(s, Advance(call, Acquire), Advance(call, ReadCache), Advance(call, ReadStore), Advance(call, Release));
    assert Apply(s, Advance(call, Acquire)) == held;
    assert Apply(held, Advance(call, ReadCache)) == read;
    assert s.holders[id := call] - {id} == s.holders;
  }

  lemma WritesAlone(s: State, call: nat, id: string, schema: Schema, prior: Schema)
    requires call in s.calls && s.calls[call] == Call(id, schema, Compared(prior))
    ensures Run(s, WriteSteps(call)) ==
      State(s.calls[call := Call(id, schema, Done(true))], s.holders - {id},
            s.cache[id := schema][id + "@" + schema.version := schema], s.latest[id := schema],
            s.log[id := (if id in s.log then s.log[id] else []) + [Commit(prior, schema)]])
  {
    FourSteps(s, Advance(call, WriteBareKey), Advance(call, WriteVersionedKey), Advance(call, WriteStore), Advance(call, Release));
  }

  lemma NothingAfterDone(s: State, call: nat)
    requires call in s.calls && s.calls[call].stage.Done?
    ensures Run(s, WriteSteps(call)) == s
  {
    FourSteps(s, Advance(call, WriteBareKey), Advance(call, WriteVersionedKey), Advance(call, WriteStore), Advance(call, Release));
  }

  function WriteSteps(call: nat): seq<Step> {
    [Advance(call, WriteBareKey), Advance(call, WriteVersionedKey), Advance(call, WriteStore), Advance(call, Release)]
  }

  lemma WholeCallSplits(s: State, call: nat, id: string, schema: Schema)
    requires call !in s.calls
    ensures var begun := s.(calls := s.calls[call := Call(id, schema, Waiting)]);
      Run(s, WholeCall(call, id, schema)) == Run(Run(begun, LookupSteps(call)), WriteSteps(call))
  {
    var begun := s.(calls := s.calls[call := Call(id, schema, Waiting)]);
    assert WholeCall(call, id, schema) == [Begin(call, id, schema)] + (LookupSteps(call) + WriteSteps(call));
    Then(s, Begin(call, id, schema), LookupSteps(call) + WriteSteps(call), begun);
    RunJoins(begun, LookupSteps(call), WriteSteps(call));
  }

  /** The state in which such a call has been compared with prior. */
  function ComparedAlone(s: State, call: nat, id: string, schema: Schema, prior: Schema): State {
    s.(calls := s.calls[call := Call(id, schema, Compared(prior))], holders := s.holders[id := call])
  }

  lemma LookupsFind(s: State, call: nat, id: string, schema: Schema, prior: Schema)
    requires id !in s.holders && (id in s.cache || id in s.latest) && prior == if id in s.cache then s.cache[id] else s.latest[id]
    ensures Run(s.(calls := s.calls[call := Call(id, schema, Waiting)]), LookupSteps(call)) == ComparedAlone(s, call, id, schema, prior)
  {
    var begun := s.(calls := s.calls[call := Call(id, schema, Waiting)]);
    LookupsAlone(begun, call, id, schema);
    assert begun.calls[call := Call(id, schema, Compared(prior))] == s.calls[call := Call(id, schema, Compared(prior))];
  }

  lemma WritesFinish(s: State, call: nat, id: string, schema: Schema, prior: Schema)
    requires id !in s.holders
    ensures Run(ComparedAlone(s, call, id, schema, prior), WriteSteps(call)) ==
      State(s.calls[call := Call(id, schema, Done(true))], s.holders,
            s.cache[id := schema][id + "@" + schema.version := schema], s.latest[id := schema],
            s.log[id := (if id in s.log then s.log[id] else []) + [Commit(prior, schema)]])
  {
    var read := ComparedAlone(s, call, id, schema, prior);
    WritesAlone(read, call, id, schema, prior);
    assert read.calls[call := Call(id, schema, Done(true))] == s.calls[call := Call(id, schema, Done(true))];
    assert s.holders[id := call] - {id} == s.holders;
  }

  /**
   Undisturbed, a checked registration of an unlocked ID is compared with the cached schema, or else the stored
   one, and ends with its own cached under both keys, latest in the store and logged, and the lock free.
   */
  lemma LoneCallCommits(s: State, call: nat, id: string, schema: Schema)
    requires call !in s.calls && id !in s.holders && (id in s.cache || id in s.latest)
    ensures Run(s, WholeCall(call, id, schema)) ==
      State(s.calls[call := Call(id, schema, Done(true))], s.holders,
            s.cache[id := schema][id + "@" + schema.version := schema], s.latest[id := schema],
            s.log[id := (if id in s.log then s.log[id] else [])
                        + [Commit(if id in s.cache then s.cache[id] else s.latest[id], schema)]])
  {
    var prior := if id in s.cache then s.cache[id] else s.latest[id];
    WholeCallSplits(s, call, id, schema);
    LookupsFind(s, call, id, schema, prior);
    WritesFinish(s, call, id, schema, prior);
  }

  /** With no prior schema anywhere it fails, and leaves everything as it was. */
  lemma LoneFirstCallFails(s: State, call: nat, id: string, schema: Schema)
    requires call !in s.calls && id !in s.holders && id !in s.cache && id !in s.latest
    ensures Run(s, WholeCall(call, id, schema)) == s.(calls := s.calls[call := Call(id, schema, Done(false))])
  {
    var begun := s.(calls := s.calls[call := Call(id, schema, Waiting)]);
    WholeCallSplits(s, call, id, schema);
    LookupsAlone(begun, call, id, schema);
    assert begun.calls[call := Call(id, schema, Done(false))] == s.calls[call := Call(id, schema, Done(false))];
    NothingAfterDone(s.(calls := s.calls[call := Call(id, schema, Done(false))]), call);
  }

  /** Giving up after the comparison frees the lock and leaves cache, store and log alone. */
  lemma AbortChangesNothing(s: State, call: nat)
    requires call in s.calls && s.calls[call].stage.Compared?
    ensures Apply(s, Advance(call, Abort)) == s.(calls := s.calls[call := Call(s.calls[call].id, s.calls[call].schema, Done(false))],
                                                 holders := s.holders - {s.calls[call].id})
  {
  }

  // ---- Successes and commits --------------------------------------------------------------

  /** The calls for id past their store write. */
  function Committed(s: State, id: string): set<nat> {
    set c | c in s.calls && s.calls[c].id == id && (s.calls[c].stage.StoreWritten? || s.calls[c].stage == Done(true))
  }

  /** Each such call has its commit, and there are no other commits. */
  ghost predicate Accounted(s: State, id: string) {
    && |Commits(s.log, id)| == |Committed(s, id)|
    && forall c | c in Committed(s, id) :: exists k :: 0 <= k < |Commits(s.log, id)| && Commits(s.log, id)[k].next == s.calls[c].schema
  }

  predicate Past(stage: Stage) {
    stage.StoreWritten? || stage == Done(true)
  }

  lemma AdvancePasses(s: State, call: nat, action: Action)
    requires call in s.calls
    ensures var s' := Advanced(s, call, action);
      && call in s'.calls && s'.calls == s.calls[call := s.calls[call].(stage := s'.calls[call].stage)]
      && (Past(s'.calls[call].stage) <==> Past(s.calls[call].stage) || (action.WriteStore? && s.calls[call].stage.VersionWritten?))
  {
  }

  lemma CommittedMoves(s: State, s': State, call: nat, id: string)
    requires call in s.calls && call in s'.calls && s'.calls == s.calls[call := s.calls[call].(stage := s'.calls[call].stage)]
    requires Past(s.calls[call].stage) ==> Past(s'.calls[call].stage)
    ensures Committed(s', id) == Committed(s, id) + if Past(s'.calls[call].stage) && s.calls[call].id == id then {call} else {}
  {
  }

  lemma AdvanceKeepsCommitted(s: State, call: nat, action: Action, id: string)
    requires call in s.calls
    ensures Committed(Advanced(s, call, action), id)
      == Committed(s, id) + if action.WriteStore? && s.calls[call].stage.VersionWritten? && s.calls[call].id == id then {call} else {}
  {
    AdvancePasses(s, call, action);
    CommittedMoves(s, Advanced(s, call, action), call, id);
  }

  lemma AdvanceKeepsSchemas(s: State, call: nat, action: Action, id: string)
    requires call in s.calls
    ensures var s', c := Advanced(s, call, action), s.calls[call];
      && (forall d | d in s.calls :: d in s'.calls && s'.calls[d].schema == s.calls[d].schema)
      && Commits(s'.log, id) == Commits(s.log, id)
           + if action.WriteStore? && c.stage.VersionWritten? && c.id == id then [Commit(c.stage.prior, c.schema)] else []
  {
  }

  lemma AccountsGrow(s: State, s': State, call: nat, prior: Schema, id: string)
    requires Accounted(s, id) && call in s.calls && call !in Committed(s, id)
    requires forall d | d in s.calls :: d in s'.calls && s'.calls[d].schema == s.calls[d].schema
    requires Committed(s', id) == Committed(s, id) + {call}
    requires Commits(s'.log, id) == Commits(s.log, id) + [Commit(prior, s.calls[call].schema)]
    ensures Accounted(s', id)
  {
    var was, now := Commits(s.log, id), Commits(s'.log, id);
    assert |Committed(s', id)| == |Committed(s, id)| + 1;
    forall c | c in Committed(s', id) ensures exists k :: 0 <= k < |now| && now[k].next == s'.calls[c].schema {
      if c == call {
        assert now[|was|].next == s'.calls[call].schema;
      } else {
        var k :| 0 <= k < |was| && was[k].next == s.calls[c].schema;
        assert now[k] == was[k];
      }
    }
  }

  lemma AccountsStay(s: State, s': State, id: string)
    requires Accounted(s, id)
    requires forall d | d in s.calls :: d in s'.calls && s'.calls[d].schema == s.calls[d].schema
    requires Committed(s', id) == Committed(s, id) && Commits(s'.log, id) == Commits(s.log, id)
    ensures Accounted(s', id)
  {
  }

  lemma AdvanceKeepsAccounts(s: State, call: nat, action: Action, id: string)
    requires Accounted(s, id) && call in s.calls
    ensures Accounted(Advanced(s, call, action), id)
  {
    AdvanceKeepsCommitted(s, call, action, id);
    AdvanceKeepsSchemas(s, call, action, id);
    var c := s.calls[call];
    if action.WriteStore? && c.stage.VersionWritten? && c.id == id {
      AccountsGrow(s, Advanced(s, call, action), call, c.stage.prior, id);
    } else {
      AccountsStay(s, Advanced(s, call, action), id);
    }
  }

  lemma StepKeepsAccounts(s: State, step: Step, id: string)
    requires Accounted(s, id)
    ensures Accounted(Apply(s, step), id)
  {
    if step.Advance? && step.call in s.calls {
      AdvanceKeepsAccounts(s, step.call, step.action, id);
    } else {
      assert Committed(Apply(s, step), id) == Committed(s, id);
    }
  }

  lemma {:induction false} RunKeepsAccounts(s: State, steps: seq<Step>, id: string)
    requires Accounted(s, id)
    ensures Accounted(Run(s, steps), id)
    decreases |steps|
  {
    if steps != [] {
      StepKeepsAccounts(s, steps[0], id);
      RunKeepsAccounts(Apply(s, steps[0]), steps[1..], id);
    }
  }

  /** In every interleaving whatever, the calls that succeed or are about to are as many as the commits, and each has its schema among them. */
  lemma SuccessesAreCommits(start: map<string, Schema>, s: State, steps: seq<Step>, id: string)
    requires Starts(start, s)
    ensures var s' := Run(s, steps);
      && |Commits(s'.log, id)| == |set c | c in s'.calls && s'.calls[c].id == id
                                           && (s'.calls[c].stage.StoreWritten? || s'.calls[c].stage == Done(true))|
      && forall c | c in s'.calls && s'.calls[c].id == id && s'.calls[c].stage == Done(true) ::
           exists k :: 0 <= k < |Commits(s'.log, id)| && Commits(s'.log, id)[k].next == s'.calls[c].schema
  {
    assert Committed(s, id) == {};
    RunKeepsAccounts(s, steps, id);
    var s' := Run(s, steps);
    assert Committed(s', id)
      == set c | c in s'.calls && s'.calls[c].id == id && (s'.calls[c].stage.StoreWritten? || s'.calls[c].stage == Done(true));
    forall c | c in s'.calls && s'.calls[c].id == id && s'.calls[c].stage == Done(true)
      ensures exists k :: 0 <= k < |Commits(s'.log, id)| && Commits(s'.log, id)[k].next == s'.calls[c].schema
    {
      assert c in Committed(s', id);
    }
  }

  /** Version 2 is compared with the cached version 1, writes the bare key, loses it, and version 1 is refilled. */
  lemma RefillOvertakes(v1: Schema, v2: Schema, rest: seq<Step>) returns (steps: seq<Step>)
    ensures Run(State(map[], map[], map["a" := v1], map["a" := v1], map[]), steps)
      == Run(State(map[0 := Call("a", v2, BareWritten(v1))], map["a" := 0], map["a" := v1], map["a" := v1], map[]), rest)
  {
    var s0 := State(map[], map[], map["a" := v1], map["a" := v1], map[]);
    var s1 := s0.(calls := map[0 := Call("a", v2, Waiting)]);
    var s2 := s1.(calls := map[0 := Call("a", v2, Holding)], holders := map["a" := 0]);
    var s3 := s2.(calls := map[0 := Call("a", v2, Compared(v1))]);
    var s4 := s3.(calls := map[0 := Call("a", v2, BareWritten(v1))], cache := map["a" := v2]);
    var s5 := s4.(cache := map[]);
    Then(s5, Fill("a"), rest, s5.(cache := map["a" := v1]));
    steps := [Fill("a")] + rest;
    Then(s4, Evict("a"), steps, s5);
    steps := [Evict("a")] + steps;
    Then(s3, Advance(0, WriteBareKey), steps, s4);
    steps := [Advance(0, WriteBareKey)] + steps;
    Then(s2, Advance(0, ReadCache), steps, s3);
    steps := [Advance(0, ReadCache)] + steps;
    Then(s1, Advance(0, Acquire), steps, s2);
    steps := [Advance(0, Acquire)] + steps;
    Then(s0, Begin(0, "a", v2), steps, s1);
    steps := [Begin(0, "a", v2)] + steps;
  }

  /** Version 2 is then committed while version 1 stays cached. */
  lemma StaleAfterCommit(v1: Schema, v2: Schema, rest: seq<Step>) returns (steps: seq<Step>)
    ensures Run(State(map[], map[], map["a" := v1], map["a" := v1], map[]), steps)
      == Run(State(map[0 := Call("a", v2, Done(true))], map[],
                   map["a" := v1, VersionedKey("a", v2.version) := v2],
                   map["a" := v2], map["a" := [Commit(v1, v2)]]), rest)
  {
    var s6 := State(map[0 := Call("a", v2, BareWritten(v1))], map["a" := 0], map["a" := v1], map["a" := v1], map[]);
    var s7 := s6.(calls := map[0 := Call("a", v2, VersionWritten(v1))],
                  cache := map["a" := v1, VersionedKey("a", v2.version) := v2]);
    var s8 := s7.(calls := map[0 := Call("a", v2, StoreWritten(v1))],
                  latest := map["a" := v2], log := map["a" := [Commit(v1, v2)]]);
    Then(s8, Advance(0, Release), rest, s8.(calls := map[0 := Call("a", v2, Done(true))], holders := map[]));
    steps := [Advance(0, Release)] + rest;
    assert Commits(s7.log, "a") + [Commit(v1, v2)] == [Commit(v1, v2)];
    Then(s7, Advance(0, WriteStore), steps, s8);
    steps := [Advance(0, WriteStore)] + steps;
    Then(s6, Advance(0, WriteVersionedKey), steps, s7);
    steps := [Advance(0, WriteVersionedKey)] + steps;
    steps := RefillOvertakes(v1, v2, steps);
  }

  /**
   Read-through refills take no lock, and that matters: an eviction and a refill between the bare-key
   write and the store write of version 2 leave version 1 cached, and version 3 is compared with it.
   */
  lemma RefillBreaksTheChain(v1: Schema, v2: Schema, v3: Schema)
    ensures exists steps ::
      var s := Run(State(map[], map[], map["a" := v1], map["a" := v1], map[]), steps);
      && Commits(s.log, "a") == [Commit(v1, v2)]
      && 1 in s.calls && s.calls[1] == Call("a", v3, Compared(v1))
  {
    VersionedKeyIsNotBare("a", v2.version, "a");
    var s9 := State(map[0 := Call("a", v2, Done(true))], map[],
                    map["a" := v1, VersionedKey("a", v2.version) := v2],
                    map["a" := v2], map["a" := [Commit(v1, v2)]]);
    var s10 := s9.(calls := s9.calls[1 := Call("a", v3, Waiting)]);
    var s11 := s10.(calls := s9.calls[1 := Call("a", v3, Holding)], holders := map["a" := 1]);
    Then(s11, Advance(1, ReadCache), [], s11.(calls := s9.calls[1 := Call("a", v3, Compared(v1))]));
    var steps := [Advance(1, ReadCache)] + [];
    Then(s10, Advance(1, Acquire), steps, s11);
    steps := [Advance(1, Acquire)] + steps;
    Then(s9, Begin(1, "a", v3), steps, s10);
    steps := [Begin(1, "a", v3)] + steps;
    steps := StaleAfterCommit(v1, v2, steps);
  }
}
