/**
 The cap on consumers per schema is checked before, and not together with, adding the consumer.
 Calls of RegisterConsumer interleave between their check and their add, and consumers are
 deregistered at any time.
 */
module ConsumerCap {
  import opened Prelude
  import opened SchemaCache

  const MAX_CONSUMERS_PER_SCHEMA := 10000

  /** The consumer map, and the entries of the calls that passed the check and have not added yet. */
  datatype State = State(consumers: map<string, ConsumerEntry>, inFlight: map<nat, ConsumerEntry>)

  datatype Step =
    | Check(call: nat, entry: ConsumerEntry)
    | Add(call: nat)
    | Deregister(consumerId: string, schemaId: string, environment: string)

  function Normalized(environment: string): string {
    if environment == "" then "dev" else environment
  }

  function Apply(s: State, step: Step): State {
    match step
    case Check(call, entry) =>
      if call in s.inFlight || entry.consumerId == "" || entry.schemaId == "" || Consumers(s, entry.schemaId) >= MAX_CONSUMERS_PER_SCHEMA
      then s
      else s.(inFlight := s.inFlight[call := entry.(environment := Normalized(entry.environment))])
    case Add(call) =>
      if call in s.inFlight
      then s.(consumers := WithConsumer(s.consumers, s.inFlight[call]), inFlight := s.inFlight - {call})
      else s
    case Deregister(consumerId, schemaId, environment) =>
      s.(consumers := s.consumers - {ConsumerKey(consumerId, schemaId, Normalized(environment))})
  }

  function Run(s: State, steps: seq<Step>): State {
    if steps == [] then s else Apply(Run(s, steps[..|steps| - 1]), steps[|steps| - 1])
  }

  /** How many consumers ListConsumers finds for a schema. */
  function Consumers(s: State, schemaId: string): nat {
    |ListedKeys(s.consumers, s.consumers.Keys, schemaId, "")|
  }

  function Pending(s: State, schemaId: string): set<nat> {
    set call | call in s.inFlight && s.inFlight[call].schemaId == schemaId
  }

  /** At no time between the steps are more than t calls for the schema in flight. */
  ghost predicate AtMostInFlight(t: nat, s: State, steps: seq<Step>, schemaId: string) {
    forall i | 0 <= i <= |steps| :: |Pending(Run(s, steps[..i]), schemaId)| <= t
  }

  const START := State(map[], map[])

  // ---- The bound --------------------------------------------------------------------------

  lemma AddGrowsByOne(s: State, call: nat, schemaId: string)
    requires call in s.inFlight
    ensures Consumers(Apply(s, Add(call)), schemaId) <= Consumers(s, schemaId) + if call in Pending(s, schemaId) then 1 else 0
    ensures Pending(Apply(s, Add(call)), schemaId) == Pending(s, schemaId) - {call}
  {
    var entry := s.inFlight[call];
    var key := ConsumerKey(entry.consumerId, entry.schemaId, entry.environment);
    var s' := Apply(s, Add(call));
    SubsetIsSmaller(ListedKeys(s'.consumers, s'.consumers.Keys, schemaId, ""),
                    ListedKeys(s.consumers, s.consumers.Keys, schemaId, "") + if entry.schemaId == schemaId then {key} else {});
  }

  lemma CheckAddsPending(s: State, call: nat, entry: ConsumerEntry, schemaId: string)
    ensures var s' := Apply(s, Check(call, entry));
      && Consumers(s', schemaId) == Consumers(s, schemaId)
      && (Pending(s', schemaId) == Pending(s, schemaId) || Consumers(s, schemaId) < MAX_CONSUMERS_PER_SCHEMA)
  {
    var s' := Apply(s, Check(call, entry));
    if entry.schemaId != schemaId {
      assert Pending(s', schemaId) == Pending(s, schemaId);
    }
  }

  lemma DeregisterShrinks(s: State, consumerId: string, schemaId': string, environment: string, schemaId: string)
    ensures var s' := Apply(s, Deregister(consumerId, schemaId', environment));
      Consumers(s', schemaId) <= Consumers(s, schemaId) && Pending(s', schemaId) == Pending(s, schemaId)
  {
    var s' := Apply(s, Deregister(consumerId, schemaId', environment));
    SubsetIsSmaller(ListedKeys(s'.consumers, s'.consumers.Keys, schemaId, ""), ListedKeys(s.consumers, s.consumers.Keys, schemaId, ""));
  }

  /** A check is passed only below the cap; an add trades a pending call for at most one consumer. */
  lemma StepKeepsSum(s: State, step: Step, schemaId: string, t: nat)
    requires t >= 1 && Consumers(s, schemaId) + |Pending(s, schemaId)| <= MAX_CONSUMERS_PER_SCHEMA - 1 + t
    requires |Pending(Apply(s, step), schemaId)| <= t
    ensures Consumers(Apply(s, step), schemaId) + |Pending(Apply(s, step), schemaId)| <= MAX_CONSUMERS_PER_SCHEMA - 1 + t
  {
    match step
    case Check(call, entry) => CheckAddsPending(s, call, entry, schemaId);
    case Add(call) => if call in s.inFlight { AddGrowsByOne(s, call, schemaId); }
    case Deregister(consumerId, id, environment) => DeregisterShrinks(s, consumerId, id, environment, schemaId);
  }

  lemma {:induction false} SumStaysBounded(t: nat, steps: seq<Step>, schemaId: string)
    requires t >= 1 && AtMostInFlight(t, START, steps, schemaId)
    ensures var s := Run(START, steps);
      Consumers(s, schemaId) + |Pending(s, schemaId)| <= MAX_CONSUMERS_PER_SCHEMA - 1 + t
  {
    assert steps[..|steps|] == steps;
    if steps == [] {
      assert ListedKeys(map[], START.consumers.Keys, schemaId, "") == {} && Pending(START, schemaId) == {};
    } else {
      var before := steps[..|steps| - 1];
      assert forall i | 0 <= i <= |before| :: before[..i] == steps[..i];
      SumStaysBounded(t, before, schemaId);
      StepKeepsSum(Run(START, before), steps[|steps| - 1], schemaId, t);
    }
  }

  /** The keys of the schema's consumers. */
  function KeysOf(consumers: map<string, ConsumerEntry>, schemaId: string): set<string> {
    set key | key in consumers && consumers[key].schemaId == schemaId
  }

  lemma ConsumersAreKeys(s: State, schemaId: string)
    ensures Consumers(s, schemaId) == |KeysOf(s.consumers, schemaId)|
  {
    assert ListedKeys(s.consumers, s.consumers.Keys, schemaId, "") == KeysOf(s.consumers, schemaId);
  }

  /** With at most t calls in flight a schema never has more than 9999 + t consumers. */
  lemma SoftCapBound(t: nat, steps: seq<Step>, schemaId: string)
    requires t >= 1 && AtMostInFlight(t, START, steps, schemaId)
    ensures |KeysOf(Run(START, steps).consumers, schemaId)| <= 9999 + t
  {
    SumStaysBounded(t, steps, schemaId);
    ConsumersAreKeys(Run(START, steps), schemaId);
  }

  /** One call at a time, the cap is kept. */
  lemma SequentialCallsKeepTheCap(steps: seq<Step>, schemaId: string)
    requires AtMostInFlight(1, START, steps, schemaId)
    ensures |KeysOf(Run(START, steps).consumers, schemaId)| <= 10000
  {
    SoftCapBound(1, steps, schemaId);
  }

  lemma TwoSteps(s: State, a: Step, b: Step)
    ensures Run(s, [a, b]) == Apply(Apply(s, a), b)
  {
    assert [a, b][..1] == [a] && [a][..0] == [];
    assert Run(s, [a]) == Apply(Run(s, []), a);
  }

  /** A check and an add, undisturbed: one more call's consumer under its key, unless an ID is missing or the schema has 10000. */
  lemma LoneCallRegisters(s: State, call: nat, entry: ConsumerEntry)
    requires call !in s.inFlight
    ensures var s' := Run(s, [Check(call, entry), Add(call)]);
      var environment := if entry.environment == "" then "dev" else entry.environment;
      var key := entry.consumerId + "/" + entry.schemaId + "/" + environment;
      && s'.inFlight == s.inFlight
      && s'.consumers ==
           if entry.consumerId == "" || entry.schemaId == "" || |KeysOf(s.consumers, entry.schemaId)| >= 10000 then s.consumers
           else s.consumers[key := entry.(environment := environment,
                                          registeredAt := if key in s.consumers then s.consumers[key].registeredAt else entry.registeredAt)]
  {
    ConsumersAreKeys(s, entry.schemaId);
    TwoSteps(s, Check(call, entry), Add(call));
    assert s.inFlight[call := entry] - {call} == s.inFlight;
  }

  /** Deregistering takes exactly that consumer's key away. */
  lemma DeregisteredIsGone(s: State, consumerId: string, schemaId: string, environment: string)
    ensures Apply(s, Deregister(consumerId, schemaId, environment)) ==
      s.(consumers := s.consumers - {consumerId + "/" + schemaId + "/" + (if environment == "" then "dev" else environment)})
  {
  }

  // ---- The bound is reached ---------------------------------------------------------------

  /** The i-th of a family of consumers of schema "s". */
  function Nth(i: nat): ConsumerEntry {
    ConsumerEntry(seq(i + 1, _ => 'c'), "s", "1", "dev", 0, [])
  }

  function NthKey(i: nat): string {
    ConsumerKey(Nth(i).consumerId, "s", "dev")
  }

  function FirstN(n: nat): map<string, ConsumerEntry> {
    if n == 0 then map[] else FirstN(n - 1)[NthKey(n - 1) := Nth(n - 1)]
  }

  /** n consumers registered, the calls a up to b in flight. */
  function Crowd(n: nat, a: nat, b: nat): State {
    State(FirstN(n), map call: nat | a <= call < b :: Nth(call))
  }

  lemma {:induction false} FirstNHasN(n: nat, i: nat)
    requires i >= n
    ensures NthKey(i) !in FirstN(n)
    ensures ListedKeys(FirstN(n), FirstN(n).Keys, "s", "") == FirstN(n).Keys && |FirstN(n).Keys| == n
  {
    if n > 0 {
      FirstNHasN(n - 1, n - 1);
      FirstNHasN(n - 1, i);
      assert |NthKey(i)| != |NthKey(n - 1)|;
      assert FirstN(n).Keys == FirstN(n - 1).Keys + {NthKey(n - 1)};
      assert forall key | key in FirstN(n) :: Matches(FirstN(n)[key], "s", "");
    }
  }

  lemma {:induction false} CrowdPending(n: nat, a: nat, b: nat)
    requires a <= b
    ensures |Pending(Crowd(n, a, b), "s")| == b - a
  {
    if a == b {
      assert Pending(Crowd(n, a, b), "s") == {};
    } else {
      CrowdPending(n, a, b - 1);
      assert Pending(Crowd(n, a, b), "s") == Pending(Crowd(n, a, b - 1), "s") + {b - 1};
    }
  }

  lemma Extend(t: nat, steps: seq<Step>, step: Step)
    requires AtMostInFlight(t, START, steps, "s") && |Pending(Apply(Run(START, steps), step), "s")| <= t
    ensures Run(START, steps + [step]) == Apply(Run(START, steps), step)
    ensures AtMostInFlight(t, START, steps + [step], "s")
  {
    var longer := steps + [step];
    assert longer[..|steps|] == steps;
    forall i | 0 <= i <= |longer| ensures |Pending(Run(START, longer[..i]), "s")| <= t {
      assert if i <= |steps| then longer[..i] == steps[..i] else longer[..i] == longer;
    }
  }

  lemma CheckCrowd(n: nat, b: nat)
    requires n <= b && n < MAX_CONSUMERS_PER_SCHEMA
    ensures Apply(Crowd(n, n, b), Check(b, Nth(b))) == Crowd(n, n, b + 1)
  {
    FirstNHasN(n, n);
    assert Consumers(Crowd(n, n, b), "s") == n;
  }

  lemma AddCrowd(n: nat, b: nat)
    requires n < b
    ensures Apply(Crowd(n, n, b), Add(n)) == Crowd(n + 1, n + 1, b)
  {
    FirstNHasN(n, n);
    assert WithConsumer(FirstN(n), Nth(n)) == FirstN(n + 1);
    assert Crowd(n, n, b).inFlight - {n} == Crowd(n + 1, n + 1, b).inFlight;
  }

  lemma CheckCrowdRun(t: nat, steps: seq<Step>, n: nat, b: nat) returns (longer: seq<Step>)
    requires n <= b < n + t && n < MAX_CONSUMERS_PER_SCHEMA
    requires AtMostInFlight(t, START, steps, "s") && Run(START, steps) == Crowd(n, n, b)
    ensures AtMostInFlight(t, START, longer, "s") && Run(START, longer) == Crowd(n, n, b + 1)
  {
    CheckCrowd(n, b);
    CrowdPending(n, n, b + 1);
    longer := steps + [Check(b, Nth(b))];
    Extend(t, steps, Check(b, Nth(b)));
  }

  lemma AddCrowdRun(t: nat, steps: seq<Step>, n: nat, b: nat) returns (longer: seq<Step>)
    requires n < b <= n + t
    requires AtMostInFlight(t, START, steps, "s") && Run(START, steps) == Crowd(n, n, b)
    ensures AtMostInFlight(t, START, longer, "s") && Run(START, longer) == Crowd(n + 1, n + 1, b)
  {
    AddCrowd(n, b);
    CrowdPending(n + 1, n + 1, b);
    longer := steps + [Add(n)];
    Extend(t, steps, Add(n));
  }

  lemma FillSequentially(t: nat, n: nat) returns (steps: seq<Step>)
    requires t >= 1 && n < MAX_CONSUMERS_PER_SCHEMA
    ensures AtMostInFlight(t, START, steps, "s") && Run(START, steps) == Crowd(n, n, n)
    decreases n
  {
    if n == 0 {
      CrowdPending(0, 0, 0);
      assert Crowd(0, 0, 0) == START;
      steps := [];
    } else {
      steps := FillSequentially(t, n - 1);
      steps := CheckCrowdRun(t, steps, n - 1, n - 1);
      steps := AddCrowdRun(t, steps, n - 1, n);
    }
  }

  lemma CheckTogether(t: nat, n: nat, b: nat) returns (steps: seq<Step>)
    requires t >= 1 && n < MAX_CONSUMERS_PER_SCHEMA && n <= b <= n + t
    ensures AtMostInFlight(t, START, steps, "s") && Run(START, steps) == Crowd(n, n, b)
    decreases b
  {
    if b == n {
      steps := FillSequentially(t, n);
    } else {
      steps := CheckTogether(t, n, b - 1);
      steps := CheckCrowdRun(t, steps, n, b - 1);
    }
  }

  lemma AddTogether(t: nat, n: nat, m: nat) returns (steps: seq<Step>)
    requires t >= 1 && n < MAX_CONSUMERS_PER_SCHEMA && n <= m <= n + t
    ensures AtMostInFlight(t, START, steps, "s") && Run(START, steps) == Crowd(m, m, n + t)
    decreases m
  {
    if m == n {
      steps := CheckTogether(t, n, n + t);
    } else {
      steps := AddTogether(t, n, m - 1);
      steps := AddCrowdRun(t, steps, m - 1, n + t);
    }
  }

  /** t calls that all check while one place is left are all admitted, so the bound cannot be lowered. */
  lemma SoftCapBoundIsReached(t: nat)
    requires t >= 1
    ensures exists steps | AtMostInFlight(t, START, steps, "s") ::
      |KeysOf(Run(START, steps).consumers, "s")| == 9999 + t
  {
    var n := MAX_CONSUMERS_PER_SCHEMA - 1;
    var steps := AddTogether(t, n, n + t);
    FirstNHasN(n + t, n + t);
    ConsumersAreKeys(Run(START, steps), "s");
  }
}
