/**
 The plugin manager: Start forks every configured plugin in parallel and keeps all of them or none,
 Stop kills what is running. The order in which the parallel starts take their steps is arbitrary.
 */
module PluginManager {
  import opened Prelude

  /** How one plugin's start goes. The two failures are before its process exists and after. */
  datatype Outcome = Rejected | FailsOnceForked | Starts(version: string)

  /** Where one parallel start stands. */
  datatype Phase =
    | Pending
    | Forked(pid: nat)
    | Failing(pid: nat)
    | InfoCleared(pid: nat)
    | InfoSet(pid: nat)
    | Succeeded(pid: nat)
    | Failed

  /** A series of the Info gauge. */
  datatype Series = Series(plugin: string, version: string)

  predicate Finished(phase: Phase) {
    phase.Succeeded? || phase.Failed?
  }

  predicate HasProcess(phase: Phase) {
    !phase.Pending? && !phase.Failed?
  }

  function StepsLeft(phase: Phase): nat {
    match phase
    case Pending => 5
    case Forked(_) => 4
    case Failing(_) => 3
    case InfoCleared(_) => 2
    case InfoSet(_) => 1
    case _ => 0
  }

  /** The steps the starts have yet to take. */
  ghost function Remaining(phases: map<string, Phase>): set<(string, int)> {
    set n, k | n in phases && 0 <= k < StepsLeft(phases[n]) :: (n, k)
  }

  lemma RemainingShrinks(phases: map<string, Phase>, name: string, next: Phase)
    requires name in phases && StepsLeft(next) < StepsLeft(phases[name])
    ensures Remaining(phases[name := next]) < Remaining(phases)
  {
    assert (name, StepsLeft(next)) in Remaining(phases) && (name, StepsLeft(next)) !in Remaining(phases[name := next]);
  }

  /** The phases a start with this outcome can be in. */
  predicate Reachable(outcome: Outcome, phase: Phase) {
    match phase
    case Pending => true
    case Forked(_) => !outcome.Rejected?
    case Failing(_) => outcome.FailsOnceForked?
    case Failed => !outcome.Starts?
    case _ => outcome.Starts?
  }

  /** What the Info gauge holds while the starts are under way, given what it held before. */
  ghost predicate InfoDuring(phases: map<string, Phase>, outcomes: map<string, Outcome>, before: set<Series>, s: Series) {
    if s.plugin !in phases || s.plugin !in outcomes then s in before
    else match phases[s.plugin]
      case InfoCleared(_) => false
      case InfoSet(_) => outcomes[s.plugin] == Starts(s.version)
      case Succeeded(_) => outcomes[s.plugin] == Starts(s.version)
      case _ => s in before
  }

  /** Beside the processes alive before, exactly those of the starts under way, each with a pid of its own. */
  ghost predicate Owned(phases: map<string, Phase>, before: set<nat>, alive: set<nat>, first: nat, next: nat) {
    && first <= next && before <= alive && (forall p | p in before :: p < first)
    && (forall n | n in phases && HasProcess(phases[n]) :: first <= phases[n].pid < next && phases[n].pid in alive)
    && (forall p | p in alive :: p in before || exists n | n in phases :: HasProcess(phases[n]) && phases[n].pid == p)
    && (forall a, b | a in phases && b in phases && a != b && HasProcess(phases[a]) && HasProcess(phases[b]) ::
          phases[a].pid != phases[b].pid)
  }

  /** What a step does to the processes. */
  ghost predicate StepsTo(phase: Phase, alive: set<nat>, pid: nat, phase': Phase, alive': set<nat>, pid': nat) {
    if HasProcess(phase) then
      pid' == pid && if HasProcess(phase') then phase'.pid == phase.pid && alive' == alive else alive' == alive - {phase.pid}
    else if HasProcess(phase') then phase'.pid == pid && pid' == pid + 1 && alive' == alive + {pid}
    else pid' == pid && alive' == alive
  }

  lemma StepKeepsOwned(phases: map<string, Phase>, before: set<nat>, alive: set<nat>, first: nat, pid: nat,
                       name: string, phase': Phase, alive': set<nat>, pid': nat)
    requires Owned(phases, before, alive, first, pid) && (forall p | p in alive :: p < pid) && name in phases
    requires StepsTo(phases[name], alive, pid, phase', alive', pid')
    ensures Owned(phases[name := phase'], before, alive', first, pid')
  {
    var phases' := phases[name := phase'];
    forall p | p in alive' && p !in before ensures exists n | n in phases' :: HasProcess(phases'[n]) && phases'[n].pid == p {
      if HasProcess(phase') && phase'.pid == p {
        assert name in phases';
      } else {
        var n :| n in phases && HasProcess(phases[n]) && phases[n].pid == p;
        assert n in phases' && n != name;
      }
    }
  }

  /** The gauges while the starts are under way. */
  ghost predicate Gauged(phases: map<string, Phase>, outcomes: map<string, Outcome>,
                         up0: set<string>, up: set<string>, info0: set<Series>, info: set<Series>) {
    && (forall n :: n in up <==> n in up0 || (n in phases && phases[n].Succeeded?))
    && (forall s :: s in info <==> InfoDuring(phases, outcomes, info0, s))
  }

  /** What a step of a plugin's start does to the gauges. */
  ghost predicate Shows(name: string, outcome: Outcome, phase': Phase,
                        up: set<string>, info: set<Series>, up': set<string>, info': set<Series>) {
    && up' == up + (if phase'.Succeeded? then {name} else {})
    && match phase'
      case InfoCleared(_) => info' == set s | s in info && s.plugin != name
      case InfoSet(_) => outcome.Starts? && info' == info + {Series(name, outcome.version)}
      case _ => info' == info
  }

  /** The phase a plugin goes to from this one. */
  predicate Follows(phase: Phase, phase': Phase) {
    match phase
    case Pending => phase'.Forked? || phase'.Failed?
    case Forked(_) => phase'.Failing? || phase'.InfoCleared?
    case Failing(_) => phase'.Failed?
    case InfoCleared(_) => phase'.InfoSet?
    case InfoSet(_) => phase'.Succeeded?
    case _ => false
  }

  lemma StepKeepsGauged(phases: map<string, Phase>, outcomes: map<string, Outcome>, up0: set<string>, info0: set<Series>,
                        up: set<string>, info: set<Series>, name: string, phase': Phase, up': set<string>, info': set<Series>)
    requires Gauged(phases, outcomes, up0, up, info0, info) && name in phases && name in outcomes
    requires Follows(phases[name], phase') && Shows(name, outcomes[name], phase', up, info, up', info')
    ensures Gauged(phases[name := phase'], outcomes, up0, up', info0, info')
  {
    var phases' := phases[name := phase'];
    forall s ensures s in info' <==> InfoDuring(phases', outcomes, info0, s) {
      assert s in info <==> InfoDuring(phases, outcomes, info0, s);
    }
  }

  /** The processes of the plugins that started. */
  function Started(phases: map<string, Phase>): map<string, nat> {
    map n | n in phases && phases[n].Succeeded? :: phases[n].pid
  }

  lemma OwnedWhenFinished(phases: map<string, Phase>, before: set<nat>, alive: set<nat>, first: nat, next: nat)
    requires Owned(phases, before, alive, first, next) && forall n | n in phases :: Finished(phases[n])
    ensures alive == before + Started(phases).Values && before !! Started(phases).Values
    ensures forall n | n in Started(phases) :: Started(phases)[n] < next
    ensures forall a, b | a in Started(phases) && b in Started(phases) && Started(phases)[a] == Started(phases)[b] :: a == b
  {
    forall p | p in alive && p !in before ensures p in Started(phases).Values {
      var n :| n in phases && HasProcess(phases[n]) && phases[n].pid == p;
      assert n in Started(phases) && Started(phases)[n] == p;
    }
  }

  lemma GaugedWhenFinished(phases: map<string, Phase>, outcomes: map<string, Outcome>,
                           up0: set<string>, up: set<string>, info0: set<Series>, info: set<Series>)
    requires Gauged(phases, outcomes, up0, up, info0, info) && phases.Keys <= outcomes.Keys
    requires forall n | n in phases :: Finished(phases[n]) && Reachable(outcomes[n], phases[n])
    ensures Started(phases).Keys == set n | n in phases && outcomes[n].Starts?
    ensures up == up0 + Started(phases).Keys
    ensures info == InfoAfter(info0, Started(phases).Keys, outcomes)
  {
    var started := Started(phases).Keys;
    forall s ensures s in info <==> s in InfoAfter(info0, started, outcomes) {
      assert s in info <==> InfoDuring(phases, outcomes, info0, s);
      assert s.plugin in started && outcomes[s.plugin] == Starts(s.version) ==> s == Series(s.plugin, outcomes[s.plugin].version);
    }
  }

  /** The Info series with those of the named plugins replaced by their new identity. */
  ghost function InfoAfter(info: set<Series>, names: set<string>, outcomes: map<string, Outcome>): set<Series>
    requires names <= outcomes.Keys && forall n | n in names :: outcomes[n].Starts?
  {
    (set s | s in info && s.plugin !in names) + set n | n in names :: Series(n, outcomes[n].version)
  }

  lemma InfoAfterHas(info: set<Series>, names: set<string>, outcomes: map<string, Outcome>)
    requires names <= outcomes.Keys && forall n | n in names :: outcomes[n].Starts?
    ensures forall s :: s in InfoAfter(info, names, outcomes) <==>
      if s.plugin in names then outcomes[s.plugin] == Starts(s.version) else s in info
  {
    forall s: Series | s.plugin in names && outcomes[s.plugin] == Starts(s.version) ensures s in InfoAfter(info, names, outcomes) {
      assert s == Series(s.plugin, outcomes[s.plugin].version);
    }
  }

  /** Where the starts stand: those running have not ended, the others have reported. */
  ghost predicate Tracks(configured: set<string>, running: set<string>, phases: map<string, Phase>, results: seq<string>,
                         outcomes: map<string, Outcome>) {
    && phases.Keys == configured && running <= configured && configured <= outcomes.Keys
    && (forall n | n in configured :: n in running <==> !Finished(phases[n]))
    && (forall n :: n in results <==> n in configured && n !in running)
    && (forall n | n in configured :: Reachable(outcomes[n], phases[n]))
  }

  class Manager {
    /** The plugins of the loaded config. */
    const configured: set<string>
    var handles: map<string, nat>
    var alive: set<nat>
    var nextPid: nat
    var up: set<string>
    var info: set<Series>

    ghost predicate Valid()
      reads this
    {
      (forall p | p in alive :: p < nextPid) && forall n | n in handles :: handles[n] < nextPid
    }

    /** Nothing runs and nothing is reported. */
    ghost predicate Idle()
      reads this
    {
      handles == map[] && alive == {} && up == {} && info == {}
    }

    /** Every configured plugin runs in a process of its own, is reported Up and has one Info series; nothing else runs. */
    ghost predicate Serving()
      reads this
    {
      && handles.Keys == configured && alive == handles.Values && up == configured
      && (forall a, b | a in handles && b in handles && handles[a] == handles[b] :: a == b)
      && (forall s, t | s in info && t in info && s.plugin == t.plugin :: s == t)
      && (forall s | s in info :: s.plugin in configured) && (forall n | n in configured :: exists v :: Series(n, v) in info)
    }

    constructor (configured: set<string>)
      ensures Valid() && Idle() && this.configured == configured
    {
      this.configured := configured;
      handles, alive, nextPid, up, info := map[], {}, 0, {}, {};
    }

    method DropInfo(name: string)
      modifies this`info
      ensures info == set s | s in old(info) && s.plugin != name
    {
      info := set s | s in info && s.plugin != name;
    }

    /** The next step of one plugin's start. */
    method Advance(name: string, outcome: Outcome, phase: Phase) returns (next: Phase)
      requires Valid() && !Finished(phase) && Reachable(outcome, phase)
      requires HasProcess(phase) ==> phase.pid in alive
      modifies this`alive, this`nextPid, this`up, this`info
      ensures Valid() && StepsLeft(next) < StepsLeft(phase)
      ensures StepsTo(phase, old(alive), old(nextPid), next, alive, nextPid)
      ensures Reachable(outcome, next)
      ensures Follows(phase, next) && Shows(name, outcome, next, old(up), old(info), up, info)
    {
      match phase
      case Pending =>
        if outcome.Rejected? {
          next := Failed;
        } else {
          next := Forked(nextPid);
          alive := alive + {nextPid};
          nextPid := nextPid + 1;
        }
      case Forked(pid) =>
        if outcome.Starts? {
          DropInfo(name);
          next := InfoCleared(pid);
        } else {
          next := Failing(pid);
        }
      case Failing(pid) =>
        alive := alive - {pid};
        next := Failed;
      case InfoCleared(pid) =>
        info := info + {Series(name, outcome.version)};
        next := InfoSet(pid);
      case InfoSet(pid) =>
        up := up + {name};
        next := Succeeded(pid);
    }

    /** The parallel starts, from the first fork to the last one ended; results are in order of completion. */
    method RunStarts(outcomes: map<string, Outcome>) returns (phases: map<string, Phase>, results: seq<string>)
      requires Valid() && configured <= outcomes.Keys
      modifies this`alive, this`nextPid, this`up, this`info
      ensures Valid() && Tracks(configured, {}, phases, results, outcomes)
      ensures Owned(phases, old(alive), alive, old(nextPid), nextPid)
      ensures Gauged(phases, outcomes, old(up), up, old(info), info)
    {
      phases := map n | n in configured :: Pending;
      results := [];
      var running := configured;
      while running != {}
        invariant Valid() && Tracks(configured, running, phases, results, outcomes)
        invariant Owned(phases, old(alive), alive, old(nextPid), nextPid)
        invariant Gauged(phases, outcomes, old(up), up, old(info), info)
        decreases Remaining(phases)
      {
        phases, results, running := AdvanceAny(phases, results, running, outcomes, old(alive), old(nextPid), old(up), old(info));
      }
    }

    /** One step of any start still under way. */
    method AdvanceAny(phases: map<string, Phase>, results: seq<string>, running: set<string>, outcomes: map<string, Outcome>,
                      ghost alive0: set<nat>, ghost pid0: nat, ghost up0: set<string>, ghost info0: set<Series>)
      returns (phases': map<string, Phase>, results': seq<string>, running': set<string>)
      requires running != {} && Valid() && configured <= outcomes.Keys && Tracks(configured, running, phases, results, outcomes)
      requires Owned(phases, alive0, alive, pid0, nextPid) && Gauged(phases, outcomes, up0, up, info0, info)
      modifies this`alive, this`nextPid, this`up, this`info
      ensures Valid() && Tracks(configured, running', phases', results', outcomes)
      ensures Owned(phases', alive0, alive, pid0, nextPid) && Gauged(phases', outcomes, up0, up, info0, info)
      ensures Remaining(phases') < Remaining(phases)
    {
      var name :| name in running;
      var next := Advance(name, outcomes[name], phases[name]);
      StepKeepsOwned(phases, alive0, old(alive), pid0, old(nextPid), name, next, alive, nextPid);
      StepKeepsGauged(phases, outcomes, up0, info0, old(up), old(info), name, next, up, info);
      RemainingShrinks(phases, name, next);
      phases' := phases[name := next];
      results' := if Finished(next) then results + [name] else results;
      running' := if Finished(next) then running - {name} else running;
    }

    /** Drains the results: the first error, and the handles of the plugins that started. */
    method Collect(phases: map<string, Phase>, results: seq<string>) returns (started: map<string, nat>, firstError: Option<string>)
      requires (forall n :: n in results <==> n in phases) && forall n | n in phases :: Finished(phases[n])
      ensures started == Started(phases)
      ensures firstError.None? <==> started.Keys == phases.Keys
      ensures firstError.Some? ==> firstError.value in phases.Keys - started.Keys
    {
      started, firstError := map[], None;
      for i := 0 to |results|
        invariant firstError.None? <==> forall n | n in results[..i] :: phases[n].Succeeded?
        invariant firstError.Some? ==> firstError.value in results[..i] && phases[firstError.value].Failed?
        invariant started == map n | n in results[..i] && phases[n].Succeeded? :: phases[n].pid
      {
        var name := results[i];
        assert results[..i + 1] == results[..i] + [name];
        if phases[name].Failed? {
          if firstError.None? {
            firstError := Some(name);
          }
        } else {
          started := started[name := phases[name].pid];
        }
      }
      assert results[..|results|] == results;
      assert forall n | n in phases :: n in results;
    }

    /** The goroutines and the draining of their results: what has started, and the first error. */
    method StartAll(outcomes: map<string, Outcome>) returns (started: map<string, nat>, firstError: Option<string>)
      requires Valid() && configured <= outcomes.Keys
      modifies this`alive, this`nextPid, this`up, this`info
      ensures Valid() && started.Keys == set n | n in configured && outcomes[n].Starts?
      ensures firstError.None? <==> started.Keys == configured
      ensures firstError.Some? ==> firstError.value in configured - started.Keys
      ensures alive == old(alive) + started.Values && old(alive) !! started.Values
      ensures forall n | n in started :: started[n] < nextPid
      ensures forall a, b | a in started && b in started && started[a] == started[b] :: a == b
      ensures up == old(up) + started.Keys
      ensures info == InfoAfter(old(info), started.Keys, outcomes)
    {
      var phases, results := RunStarts(outcomes);
      OwnedWhenFinished(phases, old(alive), alive, old(nextPid), nextPid);
      GaugedWhenFinished(phases, outcomes, old(up), up, old(info), info);
      started, firstError := Collect(phases, results);
    }

    /**
     Starts every configured plugin, their steps interleaved in any order, and returns once all have
     ended: the first plugin to report an error, or None.
     */
    method Start(outcomes: map<string, Outcome>) returns (firstError: Option<string>)
      requires Valid() && configured <= outcomes.Keys
      modifies this
      ensures Valid()
      ensures firstError.None? <==> forall n | n in configured :: outcomes[n].Starts?
      ensures firstError.Some? ==> firstError.value in configured && !outcomes[firstError.value].Starts?
      ensures var started := set n | n in configured && outcomes[n].Starts?;
        firstError.Some? ==>
          && handles == old(handles) && alive == old(alive) && up == old(up) - started
          && info == set s | s in old(info) && s.plugin !in started
      ensures firstError.None? && configured != {} ==>
        && handles.Keys == configured && alive == old(alive) + handles.Values && old(alive) !! handles.Values
        && (forall a, b | a in handles && b in handles && handles[a] == handles[b] :: a == b)
        && up == old(up) + configured
        && (forall s :: s in info <==> if s.plugin in configured then outcomes[s.plugin] == Starts(s.version) else s in old(info))
      ensures configured == {} ==> handles == old(handles) && alive == old(alive) && up == old(up) && info == old(info)
      // All or nothing from idle; a second start keeps the processes of the first alive without a handle.
      ensures old(Idle()) ==> if firstError.None? then Serving() else Idle()
      ensures firstError.None? && configured != {} ==> (alive == handles.Values <==> old(alive) == {})
    {
      if configured == {} {
        return None;
      }
      var started;
      started, firstError := StartAll(outcomes);
      if firstError.Some? {
        KillAll(started);
        return;
      }
      InfoAfterHas(old(info), configured, outcomes);
      assert forall n | n in configured :: Series(n, outcomes[n].version) in info;
      handles := started;
    }

    /** Kills the processes and takes their plugins out of Up and Info. */
    method KillAll(targets: map<string, nat>)
      modifies this`alive, this`up, this`info
      ensures alive == old(alive) - targets.Values
      ensures up == old(up) - targets.Keys
      ensures info == set s | s in old(info) && s.plugin !in targets
    {
      var todo := targets.Keys;
      while todo != {}
        invariant todo <= targets.Keys
        invariant alive == old(alive) - set n | n in targets.Keys - todo :: targets[n]
        invariant up == old(up) - (targets.Keys - todo)
        invariant info == set s | s in old(info) && s.plugin !in targets.Keys - todo
      {
        var name :| name in todo;
        alive := alive - {targets[name]};
        up := up - {name};
        DropInfo(name);
        todo := todo - {name};
      }
    }

    method Stop()
      requires Valid()
      modifies this
      ensures Valid() && handles == map[] && nextPid == old(nextPid)
      ensures alive == old(alive) - old(handles).Values
      ensures up == old(up) - old(handles).Keys
      ensures info == set s | s in old(info) && s.plugin !in old(handles)
      ensures old(Idle()) || old(Serving()) ==> Idle()
    {
      var stopping := handles;
      handles := map[];
      KillAll(stopping);
    }
  }
}
