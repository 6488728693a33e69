/**
 Which installs and removals the state protocol bears: those that touch neither state.json nor its
 lock file. For the others there is a run in which an update is lost or the file stops parsing.
 */
module StateGuards {
  import opened Prelude
  import I = PluginInstall
  import opened StateTransactions

  /** What the protocol promises of a run. */
  ghost predicate Serial(root: I.Path, file: StateFile, steps: seq<Step>)
    requires Parsed(file).Some?
  {
    var s := Run(Start(root, file), steps);
    Parsed(s.file.content).Some? && Parsed(s.file.content) == Fold(s.processes, Parsed(file).value, s.log)
  }

  // ---- Running one process through several actions ----------------------------------------

  function Acts(p: nat, actions: seq<Action>): seq<Step> {
    seq(|actions|, i requires 0 <= i < |actions| => Advance(p, actions[i]))
  }

  function After(s: System, p: nat, actions: seq<Action>): System {
    if actions == [] then s
    else
      var before := After(s, p, actions[..|actions| - 1]);
      if p in before.processes then Advanced(before, p, actions[|actions| - 1]) else before
  }

  lemma {:induction false} RunActs(s: System, steps: seq<Step>, p: nat, actions: seq<Action>)
    ensures Run(s, steps + Acts(p, actions)) == After(Run(s, steps), p, actions)
  {
    if actions == [] {
      assert steps + Acts(p, []) == steps;
    } else {
      var k := |actions| - 1;
      RunActs(s, steps, p, actions[..k]);
      assert steps + Acts(p, actions) == (steps + Acts(p, actions[..k])) + [Advance(p, actions[k])];
      RunStep(s, steps + Acts(p, actions[..k]), Advance(p, actions[k]));
    }
  }

  lemma RunStep(s: System, steps: seq<Step>, step: Step)
    ensures Run(s, steps + [step]) == Apply(Run(s, steps), step)
  {
    assert (steps + [step])[..|steps|] == steps;
  }

  lemma ActsAre(p: nat, actions: seq<Action>, step: Step)
    requires step in Acts(p, actions)
    ensures step.Advance? && step.action in actions
  {
  }

  const READING: seq<Action> := [Lock, ReadFile]
  const FINISHING: seq<Action> := [CreateTemp, Encode, Sync, Rename]

  lemma AfterOne(s: System, p: nat, action: Action)
    requires p in s.processes
    ensures After(s, p, [action]) == Advanced(s, p, action)
  {
    assert [action][..0] == [] && After(s, p, []) == s;
  }

  lemma AfterTwo(s: System, p: nat, first: Action, second: Action, between: System)
    requires p in s.processes && Advanced(s, p, first) == between && p in between.processes
    ensures After(s, p, [first, second]) == Advanced(between, p, second)
  {
    AfterOne(s, p, first);
    assert [first, second][..1] == [first];
  }

  /** Only the last stage a process is put at shows. */
  lemma LastStageShows(processes: map<nat, Process>, p: nat, stage: Stage, stage': Stage)
    requires p in processes
    ensures var once := processes[p := processes[p].(stage := stage)];
      once[p := once[p].(stage := stage')] == processes[p := processes[p].(stage := stage')]
  {
  }

  /** A process that opened an unlocked lock file locks it and reads the state. */
  lemma Reads(s: System, p: nat)
    requires p in s.processes && s.processes[p].stage.Opened? && s.processes[p].inode !in s.held && Parsed(s.file.content).Some?
    ensures After(s, p, READING)
      == At(s, p, Read(Parsed(s.file.content).value)).(held := s.held[s.processes[p].inode := p])
  {
    var locked := At(s, p, Locked).(held := s.held[s.processes[p].inode := p]);
    AfterTwo(s, p, Lock, ReadFile, locked);
    LastStageShows(s.processes, p, Locked, Read(Parsed(s.file.content).value));
  }

  lemma Writes(s: System, p: nat, next: I.Plugins)
    requires p in s.processes && s.processes[p].stage == Applied(next) && p !in s.temps
    ensures After(s, p, [CreateTemp, Encode])
      == At(s, p, Encoded(next)).(temps := s.temps[p := OnDisk(Whole(I.CURRENT_STATE_VERSION, next), false)])
  {
    var created := At(s, p, TempCreated(next)).(temps := s.temps[p := OnDisk(Torn, false)]);
    var whole := OnDisk(Whole(I.CURRENT_STATE_VERSION, next), false);
    AfterTwo(s, p, CreateTemp, Encode, created);
    LastStageShows(s.processes, p, TempCreated(next), Encoded(next));
    LastTempShows(s.temps, p, OnDisk(Torn, false), whole);
  }

  lemma LastTempShows(temps: map<nat, OnDisk>, p: nat, temp: OnDisk, temp': OnDisk)
    ensures temps[p := temp][p := temp'] == temps[p := temp']
  {
  }

  lemma Renames(s: System, p: nat, next: I.Plugins)
    requires p in s.processes && s.processes[p].stage == Encoded(next)
    requires p in s.temps && s.temps[p].content == Whole(I.CURRENT_STATE_VERSION, next)
    ensures After(s, p, [Sync, Rename])
      == At(s, p, Renamed).(
        file := OnDisk(Whole(I.CURRENT_STATE_VERSION, next), true), temps := s.temps - {p}, log := s.log + [p])
  {
    var synced := At(s, p, Synced(next)).(temps := s.temps[p := s.temps[p].(synced := true)]);
    AfterTwo(s, p, Sync, Rename, synced);
    LastStageShows(s.processes, p, Synced(next), Renamed);
    assert synced.temps - {p} == s.temps - {p};
  }

  lemma {:induction false} AfterAppend(s: System, p: nat, a: seq<Action>, b: seq<Action>)
    ensures After(s, p, a + b) == After(After(s, p, a), p, b)
  {
    if b == [] {
      assert a + b == a;
    } else {
      AfterAppend(s, p, a, b[..|b| - 1]);
      assert (a + b)[..|a + b| - 1] == a + b[..|b| - 1];
    }
  }

  lemma FinishingInTwo(s: System, p: nat)
    ensures After(s, p, FINISHING) == After(After(s, p, [CreateTemp, Encode]), p, [Sync, Rename])
  {
    assert FINISHING == [CreateTemp, Encode] + [Sync, Rename];
    AfterAppend(s, p, [CreateTemp, Encode], [Sync, Rename]);
  }

  lemma TempIsGone(temps: map<nat, OnDisk>, p: nat, temp: OnDisk)
    requires p !in temps
    ensures temps[p := temp] - {p} == temps
  {
  }

  /** A process that applied its change writes it out. */
  lemma Finishes(s: System, p: nat)
    requires p in s.processes && s.processes[p].stage.Applied? && p !in s.temps
    ensures After(s, p, FINISHING)
      == At(s, p, Renamed).(
        file := OnDisk(Whole(I.CURRENT_STATE_VERSION, s.processes[p].stage.next), true), log := s.log + [p])
  {
    var next := s.processes[p].stage.next;
    var whole := OnDisk(Whole(I.CURRENT_STATE_VERSION, next), false);
    var encoded := At(s, p, Encoded(next)).(temps := s.temps[p := whole]);
    FinishingInTwo(s, p);
    Writes(s, p, next);
    Renames(encoded, p, next);
    LastStageShows(s.processes, p, Encoded(next), Renamed);
    TempIsGone(s.temps, p, whole);
  }

  const WHOLE_TURN: seq<Action> := READING + [Callback] + FINISHING

  /** From reading on, a process alone commits. */
  lemma Commits(s: System, p: nat, next: I.Plugins)
    requires p in s.processes && s.processes[p].stage.Read? && s.processes[p].copies.Other? && p !in s.temps
    requires Changed(s.processes[p].transaction, s.processes[p].stage.current) == Some(next)
    ensures After(s, p, [Callback] + FINISHING)
      == At(s, p, Renamed).(file := OnDisk(Whole(I.CURRENT_STATE_VERSION, next), true), log := s.log + [p])
  {
    AfterAppend(s, p, [Callback], FINISHING);
    AfterOne(s, p, Callback);
    Finishes(At(s, p, Applied(next)), p);
    LastStageShows(s.processes, p, Applied(next), Renamed);
  }

  lemma TurnInTwo(s: System, p: nat)
    ensures After(s, p, WHOLE_TURN) == After(After(s, p, READING), p, [Callback] + FINISHING)
  {
    assert WHOLE_TURN == READING + ([Callback] + FINISHING);
    AfterAppend(s, p, READING, [Callback] + FINISHING);
  }

  /** A whole turn of a process alone. */
  lemma TakesTurn(s: System, p: nat, next: I.Plugins)
    requires p in s.processes && s.processes[p].stage.Opened? && s.processes[p].inode !in s.held && Parsed(s.file.content).Some?
    requires s.processes[p].copies.Other? && p !in s.temps
    requires Changed(s.processes[p].transaction, Parsed(s.file.content).value) == Some(next)
    ensures After(s, p, WHOLE_TURN)
      == At(s, p, Renamed).(held := s.held[s.processes[p].inode := p],
                            file := OnDisk(Whole(I.CURRENT_STATE_VERSION, next), true), log := s.log + [p])
  {
    var current := Parsed(s.file.content).value;
    TurnInTwo(s, p);
    Reads(s, p);
    LastStageShows(s.processes, p, Read(current), Renamed);
    Commits(At(s, p, Read(current)).(held := s.held[s.processes[p].inode := p]), p, next);
  }

  /** A process of its own that opens, and is left undisturbed until it unlocks. */
  function Undisturbed(p: nat, t: Transaction): seq<Step> {
    [Open(p, t)] + Acts(p, [Lock, ReadFile, Callback, CreateTemp, Encode, Sync, Rename, Unlock])
  }

  lemma UnlocksAfterTurn(s: System, p: nat, t: Transaction, inode: nat, next: I.Plugins)
    requires p in s.processes && s.processes[p] == Process(t, Other, inode, Opened) && inode !in s.held && p !in s.temps
    requires Parsed(s.file.content).Some? && Changed(t, Parsed(s.file.content).value) == Some(next)
    ensures After(s, p, [Lock, ReadFile, Callback, CreateTemp, Encode, Sync, Rename, Unlock]) ==
      s.(processes := s.processes[p := Process(t, Other, inode, if t.Drop? then Deleting else Ended(true))],
         file := OnDisk(Whole(1, next), true), log := s.log + [p])
  {
    assert [Lock, ReadFile, Callback, CreateTemp, Encode, Sync, Rename, Unlock] == WHOLE_TURN + [Unlock];
    AfterAppend(s, p, WHOLE_TURN, [Unlock]);
    TakesTurn(s, p, next);
    AfterOne(After(s, p, WHOLE_TURN), p, Unlock);
    LastStageShows(s.processes, p, Renamed, if t.Drop? then Deleting else Ended(true));
    assert s.held[inode := p] - {inode} == s.held;
  }

  /**
   A transaction alone with an unlocked lock file and a readable state ends with its change on disk as version 1,
   itself logged, and nothing else changed but that a missing lock file was created.
   */
  lemma LoneTransactionCommits(s: System, p: nat, t: Transaction, next: I.Plugins)
    requires p !in s.processes && p !in s.temps && CopyPlace(s.root, t).Other?
    requires (if s.lockFile.Some? then s.lockFile.value else s.nextInode) !in s.held
    requires Parsed(s.file.content).Some? && Changed(t, Parsed(s.file.content).value) == Some(next)
    ensures var inode := if s.lockFile.Some? then s.lockFile.value else s.nextInode;
      Run(s, Undisturbed(p, t)) ==
        System(s.root, OnDisk(Whole(1, next), true), s.temps,
               Some(inode), if s.lockFile.Some? then s.nextInode else s.nextInode + 1, s.held,
               s.processes[p := Process(t, Other, inode, if t.Drop? then Deleting else Ended(true))], s.log + [p])
  {
    var inode := if s.lockFile.Some? then s.lockFile.value else s.nextInode;
    RunActs(s, [Open(p, t)], p, [Lock, ReadFile, Callback, CreateTemp, Encode, Sync, Rename, Unlock]);
    assert [Open(p, t)] == [] + [Open(p, t)];
    RunStep(s, [], Open(p, t));
    var begun := Apply(s, Open(p, t));
    UnlocksAfterTurn(begun, p, t, inode, next);
    assert begun.processes[p := Process(t, Other, inode, if t.Drop? then Deleting else Ended(true))]
      == s.processes[p := Process(t, Other, inode, if t.Drop? then Deleting else Ended(true))];
  }

  /** A transaction that refuses the state it finds ends there, with the lock free and the file as it was. */
  lemma LoneTransactionRefuses(s: System, p: nat, t: Transaction, inode: nat)
    requires p in s.processes && s.processes[p].transaction == t && s.processes[p].stage.Opened?
    requires s.processes[p].inode == inode && inode !in s.held
    requires Parsed(s.file.content).Some? && Changed(t, Parsed(s.file.content).value).None?
    ensures After(s, p, [Lock, ReadFile, Callback]) == s.(processes := s.processes[p := s.processes[p].(stage := Ended(false))])
  {
    assert [Lock, ReadFile, Callback] == READING + [Callback];
    AfterAppend(s, p, READING, [Callback]);
    Reads(s, p);
    AfterOne(After(s, p, READING), p, Callback);
    LastStageShows(s.processes, p, Read(Parsed(s.file.content).value), Ended(false));
    assert s.held[inode := p] - {inode} == s.held;
  }

  // ---- Losing runs ------------------------------------------------------------------------

  /** An install in place that records nothing anywhere near, under a name other than the given one. */
  function Bystander(name: string): Transaction {
    Put(if name == "a" then "b" else "a", I.InstalledPlugin(I.Blank, I.Bytes(""), 0), None)
  }

  /** t, past its copy, still holds the old lock file while another process opens the new one. */
  lemma OvertakenRun(root: I.Path, t: Transaction)
    requires t.Put? && CopyPlace(root, t).LockFilePlace?
    ensures Run(Start(root, Missing), [Open(0, t)] + Acts(0, READING) + Acts(0, [Callback]) + [Open(1, Bystander(t.name))])
      == System(root, OnDisk(Missing, true), map[], Some(1), 2, map[0 := 0],
                map[0 := Process(t, LockFilePlace, 0, Applied(map[t.name := t.entry])),
                    1 := Process(Bystander(t.name), Other, 1, Opened)], [])
  {
    var s0 := Start(root, Missing);
    var u := Bystander(t.name);
    assert Run(s0, []) == s0 && [Open(0, t)][..0] == [];
    var s1 := System(root, OnDisk(Missing, true), map[], Some(0), 1, map[], map[0 := Process(t, LockFilePlace, 0, Opened)], []);
    assert Run(s0, [Open(0, t)]) == s1;
    RunActs(s0, [Open(0, t)], 0, READING);
    Reads(s1, 0);
    var s2 := s1.(held := map[0 := 0], processes := map[0 := Process(t, LockFilePlace, 0, Read(map[]))]);
    var steps := [Open(0, t)] + Acts(0, READING);
    assert Run(s0, steps) == s2;
    RunActs(s0, steps, 0, [Callback]);
    assert [Callback][..0] == [] && After(s2, 0, []) == s2;
    var s3 := s2.(lockFile := Some(1), nextInode := 2,
                  processes := map[0 := Process(t, LockFilePlace, 0, Applied(map[t.name := t.entry]))]);
    assert map[][t.name := t.entry] == map[t.name := t.entry];
    assert After(s2, 0, [Callback]) == s3;
    RunStep(s0, steps + Acts(0, [Callback]), Open(1, u));
    assert s3.processes[1 := Process(u, Other, 1, Opened)]
      == map[0 := Process(t, LockFilePlace, 0, Applied(map[t.name := t.entry])), 1 := Process(u, Other, 1, Opened)];
  }

  /** A run in which the last committed of two transactions never saw the first. */
  lemma UpdateLost(root: I.Path, steps: seq<Step>, initial: I.Plugins, file: StateFile, log: seq<nat>, last: nat, lost: string)
    requires Parsed(file) == Some(initial)
    requires var s := Run(Start(root, file), steps);
      && s.log == log + [last] && last in s.processes && s.processes[last].transaction.Put?
      && Parsed(s.file.content).Some? && lost !in Parsed(s.file.content).value
      && s.processes[last].transaction.name != lost
      && Fold(s.processes, initial, log).Some? && lost in Fold(s.processes, initial, log).value
    ensures !Serial(root, file, steps)
  {
    var s := Run(Start(root, file), steps);
    assert (log + [last])[..|log|] == log;
  }

  lemma FoldOne(processes: map<nat, Process>, initial: I.Plugins, p: nat)
    requires p in processes
    ensures Fold(processes, initial, [p]) == Changed(processes[p].transaction, initial)
  {
    assert [p][..0] == [];
    assert Fold(processes, initial, []) == Some(initial);
  }

  lemma ActsSpare(root: I.Path, p: nat, actions: seq<Action>)
    requires forall action | action in actions :: !action.Delete?
    ensures forall step | step in Acts(p, actions) :: Spares(root, step)
  {
  }

  function TwoPuts(t: Transaction, first: Stage, second: Stage): map<nat, Process>
    requires t.Put?
  {
    map[0 := Process(t, LockFilePlace, 0, first), 1 := Process(Bystander(t.name), Other, 1, second)]
  }

  /** Then the other commits, and after it t. */
  lemma OvertakenThenBoth(t: Transaction, s: System)
    requires t.Put? && s.file == OnDisk(Missing, true) && s.temps == map[] && s.held == map[0 := 0] && s.log == []
    requires s.processes == TwoPuts(t, Applied(map[t.name := t.entry]), Opened)
    ensures var u := Bystander(t.name);
      var both := After(After(s, 1, WHOLE_TURN), 0, FINISHING);
      && both.file.content == Whole(I.CURRENT_STATE_VERSION, map[t.name := t.entry]) && both.log == [1] + [0]
      && both.processes == TwoPuts(t, Renamed, Renamed)
  {
    var u := Bystander(t.name);
    var other: I.Plugins := map[u.name := u.entry];
    assert map[][u.name := u.entry] == other;
    TakesTurn(s, 1, other);
    var s1 := After(s, 1, WHOLE_TURN);
    assert s1.processes == TwoPuts(t, Applied(map[t.name := t.entry]), Renamed);
    Finishes(s1, 0);
    assert s1.processes[0 := Process(t, LockFilePlace, 0, Renamed)] == TwoPuts(t, Renamed, Renamed);
  }

  function Overtaking(t: Transaction): seq<Step>
    requires t.Put?
  {
    [Open(0, t)] + Acts(0, READING) + Acts(0, [Callback]) + [Open(1, Bystander(t.name))]
  }

  /** An install over the lock file loses the update of whoever opens the new one. */
  lemma InstallOverLockLoses(root: I.Path, t: Transaction)
    requires t.Put? && CopyPlace(root, t).LockFilePlace?
    ensures !Serial(root, Missing, Overtaking(t) + Acts(1, WHOLE_TURN) + Acts(0, FINISHING))
  {
    var s0, u := Start(root, Missing), Bystander(t.name);
    var steps := Overtaking(t);
    OvertakenRun(root, t);
    OvertakenThenBoth(t, Run(s0, steps));
    RunActs(s0, steps, 1, WHOLE_TURN);
    RunActs(s0, steps + Acts(1, WHOLE_TURN), 0, FINISHING);
    var all := steps + Acts(1, WHOLE_TURN) + Acts(0, FINISHING);
    FoldOne(Run(s0, all).processes, map[], 1);
    UpdateLost(root, all, map[], Missing, [1], 0, u.name);
  }

  /** The losing run consists of t and of steps that spare the protocol's files. */
  lemma OvertakingSpares(root: I.Path, t: Transaction, step: Step)
    requires t.Put? && step in Overtaking(t) + Acts(1, WHOLE_TURN) + Acts(0, FINISHING)
    ensures Spares(root, step) || step == Open(0, t)
  {
    ActsSpare(root, 0, READING);
    ActsSpare(root, 0, [Callback]);
    ActsSpare(root, 1, WHOLE_TURN);
    ActsSpare(root, 0, FINISHING);
  }

  // ---- Removals ---------------------------------------------------------------------------

  /** A state recording one plugin at a path, and its removal. */
  function Recorded(at: I.Path): I.Plugins {
    map["p" := I.InstalledPlugin(I.Absolute(at), I.Bytes(""), 0)]
  }

  function Removal(root: I.Path): Transaction {
    Drop("p", root, None)
  }

  function Dropped(root: I.Path, at: I.Path, processes: map<nat, Process>, held: map<nat, nat>, stage: Stage): System {
    System(root, OnDisk(Whole(I.CURRENT_STATE_VERSION, map[]), true), map[], Some(0), 1, held,
           processes[0 := Process(Removal(root), Other, 0, stage)], [0])
  }

  /** The removal up to its late delete: its record is gone, its lock given back. */
  lemma DroppedRun(root: I.Path, at: I.Path)
    requires root < at
    ensures Run(Start(root, Whole(I.CURRENT_STATE_VERSION, Recorded(at))), [Open(0, Removal(root))] + Acts(0, WHOLE_TURN) + Acts(0, [Unlock]))
      == Dropped(root, at, map[], map[], Deleting)
  {
    var s0, d := Start(root, Whole(I.CURRENT_STATE_VERSION, Recorded(at))), Removal(root);
    I.CleanFixesPaths(at);
    assert Run(s0, []) == s0 && [Open(0, d)][..0] == [];
    var s1 := Run(s0, [Open(0, d)]);
    assert s1 == s0.(lockFile := Some(0), nextInode := 1, processes := map[0 := Process(d, Other, 0, Opened)]);
    assert Recorded(at) - {"p"} == map[];
    TakesTurn(s1, 0, map[]);
    RunActs(s0, [Open(0, d)], 0, WHOLE_TURN);
    var s2 := Dropped(root, at, map[], map[0 := 0], Renamed);
    assert Run(s0, [Open(0, d)] + Acts(0, WHOLE_TURN)) == s2;
    RunActs(s0, [Open(0, d)] + Acts(0, WHOLE_TURN), 0, [Unlock]);
    AfterOne(s2, 0, Unlock);
    assert map[0 := 0] - {0} == map[];
  }

  /** Two installs that touch nothing of the protocol, of different names. */
  const A: Transaction := Bystander("b")
  const B: Transaction := Bystander("a")

  function Alone(t: Transaction): I.Plugins
    requires t.Put?
  {
    map[t.name := t.entry]
  }

  function Dropping(root: I.Path): seq<Step> {
    [Open(0, Removal(root))] + Acts(0, WHOLE_TURN) + Acts(0, [Unlock])
  }

  function StateDeletedLate(root: I.Path): seq<Step> {
    Dropping(root) + [Open(1, B)] + Acts(1, WHOLE_TURN) + Acts(0, [Delete(StateFilePlace)])
  }

  lemma DroppedThenOther(root: I.Path)
    ensures Run(Start(root, Whole(I.CURRENT_STATE_VERSION, Recorded(I.StatePath(root)))), Dropping(root) + [Open(1, B)] + Acts(1, WHOLE_TURN))
      == Dropped(root, I.StatePath(root), map[1 := Process(B, Other, 0, Renamed)], map[0 := 1], Deleting).(
        file := OnDisk(Whole(I.CURRENT_STATE_VERSION, Alone(B)), true), log := [0] + [1])
  {
    var s0 := Start(root, Whole(I.CURRENT_STATE_VERSION, Recorded(I.StatePath(root))));
    DroppedRun(root, I.StatePath(root));
    RunStep(s0, Dropping(root), Open(1, B));
    var s1 := Run(s0, Dropping(root) + [Open(1, B)]);
    assert map[][B.name := B.entry] == Alone(B);
    TakesTurn(s1, 1, Alone(B));
    RunActs(s0, Dropping(root) + [Open(1, B)], 1, WHOLE_TURN);
    assert s1.processes[1 := Process(B, Other, 0, Renamed)]
      == map[1 := Process(B, Other, 0, Renamed)][0 := Process(Removal(root), Other, 0, Deleting)];
  }

  /** A late delete of state.json takes along what was committed since. */
  lemma DeletingStateLoses(root: I.Path)
    ensures !Serial(root, Whole(I.CURRENT_STATE_VERSION, Recorded(I.StatePath(root))), StateDeletedLate(root))
  {
    var initial := Recorded(I.StatePath(root));
    var s0 := Start(root, Whole(I.CURRENT_STATE_VERSION, initial));
    var steps := Dropping(root) + [Open(1, B)] + Acts(1, WHOLE_TURN);
    DroppedThenOther(root);
    var s2 := Run(s0, steps);
    RunActs(s0, steps, 0, [Delete(StateFilePlace)]);
    AfterOne(s2, 0, Delete(StateFilePlace));
    var s := Run(s0, steps + Acts(0, [Delete(StateFilePlace)]));
    assert Parsed(s.file.content) == Some(map[]) && s.log == [0] + [1];
    RemovalFolds(root, I.StatePath(root), s.processes);
    assert ([0] + [1])[..1] == [0];
    assert B.name in Fold(s.processes, initial, s.log).value;
  }

  lemma RemovalFolds(root: I.Path, at: I.Path, processes: map<nat, Process>)
    requires root < at && 0 in processes && processes[0].transaction == Removal(root)
    ensures Fold(processes, Recorded(at), [0]) == Some(map[])
  {
    I.CleanFixesPaths(at);
    FoldOne(processes, Recorded(at), 0);
    assert Recorded(at) - {"p"} == map[];
  }

  /** Two processes in the critical section, each with a lock of its own. */
  function Split(root: I.Path, stage: Stage): System {
    System(root, OnDisk(Whole(I.CURRENT_STATE_VERSION, map[]), true), map[], Some(1), 2, map[0 := 1],
           map[0 := Process(Removal(root), Other, 0, Ended(true)), 1 := Process(B, Other, 0, Read(map[])), 2 := Process(A, Other, 1, stage)],
           [0])
  }

  function Splitting(root: I.Path): seq<Step> {
    Dropping(root) + [Open(1, B)] + Acts(1, READING) + Acts(0, [Delete(LockFilePlace)]) + [Open(2, A)]
  }

  lemma ReadingRun(root: I.Path)
    ensures Run(Start(root, Whole(I.CURRENT_STATE_VERSION, Recorded(LockPath(root)))), Dropping(root) + [Open(1, B)] + Acts(1, READING))
      == Dropped(root, LockPath(root), map[1 := Process(B, Other, 0, Read(map[]))], map[0 := 1], Deleting)
  {
    var s0 := Start(root, Whole(I.CURRENT_STATE_VERSION, Recorded(LockPath(root))));
    var steps := Dropping(root) + [Open(1, B)];
    DroppedRun(root, LockPath(root));
    RunStep(s0, Dropping(root), Open(1, B));
    Reads(Run(s0, steps), 1);
    RunActs(s0, steps, 1, READING);
    assert Run(s0, steps).processes[1 := Process(B, Other, 0, Read(map[]))]
      == map[1 := Process(B, Other, 0, Read(map[]))][0 := Process(Removal(root), Other, 0, Deleting)];
  }

  lemma SplitRun(root: I.Path)
    ensures Run(Start(root, Whole(I.CURRENT_STATE_VERSION, Recorded(LockPath(root)))), Splitting(root)) == Split(root, Opened)
  {
    var s0 := Start(root, Whole(I.CURRENT_STATE_VERSION, Recorded(LockPath(root))));
    ReadingRun(root);
    var steps := Dropping(root) + [Open(1, B)] + Acts(1, READING);
    var s2 := Run(s0, steps);
    RunActs(s0, steps, 0, [Delete(LockFilePlace)]);
    AfterOne(s2, 0, Delete(LockFilePlace));
    steps := steps + Acts(0, [Delete(LockFilePlace)]);
    RunStep(s0, steps, Open(2, A));
    assert Run(s0, steps + [Open(2, A)]).processes == Split(root, Opened).processes;
  }

  function LockDeletedLate(root: I.Path): seq<Step> {
    Splitting(root) + Acts(2, WHOLE_TURN) + Acts(1, [Callback] + FINISHING)
  }

  lemma BothCommit(root: I.Path)
    ensures var s := After(After(Split(root, Opened), 2, WHOLE_TURN), 1, [Callback] + FINISHING);
      && s.file.content == Whole(I.CURRENT_STATE_VERSION, Alone(B)) && s.log == [0, 2] + [1]
      && s.processes == Split(root, Renamed).processes[1 := Process(B, Other, 0, Renamed)]
  {
    assert map[][A.name := A.entry] == Alone(A) && map[][B.name := B.entry] == Alone(B);
    TakesTurn(Split(root, Opened), 2, Alone(A));
    var s1 := After(Split(root, Opened), 2, WHOLE_TURN);
    assert s1.processes == Split(root, Renamed).processes;
    Commits(s1, 1, Alone(B));
    assert [0] + [2] == [0, 2];
  }

  /** A late delete of the lock file lets two processes in, and one update is lost. */
  lemma DeletingLockLoses(root: I.Path)
    ensures !Serial(root, Whole(I.CURRENT_STATE_VERSION, Recorded(LockPath(root))), LockDeletedLate(root))
  {
    var initial := Recorded(LockPath(root));
    var s0 := Start(root, Whole(I.CURRENT_STATE_VERSION, initial));
    SplitRun(root);
    BothCommit(root);
    RunActs(s0, Splitting(root), 2, WHOLE_TURN);
    RunActs(s0, Splitting(root) + Acts(2, WHOLE_TURN), 1, [Callback] + FINISHING);
    var s := Run(s0, LockDeletedLate(root));
    RemovalFolds(root, LockPath(root), s.processes);
    assert [0, 2][..1] == [0] && Changed(A, map[]) == Some(map[][A.name := A.entry]);
    UpdateLost(root, LockDeletedLate(root), initial, Whole(I.CURRENT_STATE_VERSION, initial), [0, 2], 1, A.name);
  }

  // ---- The guards are exact ---------------------------------------------------------------

  /** An install over state.json, stopped after its copy, leaves a file that does not parse. */
  lemma InstallOverStateTears(root: I.Path, t: Transaction)
    requires t.Put? && CopyPlace(root, t).StateFilePlace?
    ensures !Serial(root, Missing, [Open(0, t)] + Acts(0, READING) + Acts(0, [Callback]))
  {
    var s0 := Start(root, Missing);
    assert Run(s0, []) == s0 && [Open(0, t)][..0] == [];
    var s1 := Run(s0, [Open(0, t)]);
    RunActs(s0, [Open(0, t)], 0, READING);
    Reads(s1, 0);
    var s2 := After(s1, 0, READING);
    RunActs(s0, [Open(0, t)] + Acts(0, READING), 0, [Callback]);
    AfterOne(s2, 0, Callback);
    assert Changed(t, map[]).Some?;
  }

  /**
   Runs of any number of processes of which some may carry out t, and no other touches the protocol's
   files, are serial exactly when t copies no binary over state.json or its lock file.
   */
  lemma CopyGuardIsExact(root: I.Path, t: Transaction)
    requires t.Put?
    ensures (forall file, steps | Parsed(file).Some? && (forall step | step in steps :: Spares(root, step) || (step.Open? && step.transaction == t)) ::
               Serial(root, file, steps))
      <==> CopyPlace(root, t).Other?
  {
    if CopyPlace(root, t).Other? {
      forall file, steps | Parsed(file).Some? && forall step | step in steps :: Spares(root, step) || (step.Open? && step.transaction == t)
        ensures Serial(root, file, steps)
      {
        assert forall step | step in steps :: Spares(root, step);
        FileIsFoldOfCommitted(root, file, steps);
      }
    } else if CopyPlace(root, t).LockFilePlace? {
      var steps := Overtaking(t) + Acts(1, WHOLE_TURN) + Acts(0, FINISHING);
      InstallOverLockLoses(root, t);
      forall step | step in steps ensures Spares(root, step) || (step.Open? && step.transaction == t) {
        OvertakingSpares(root, t, step);
      }
    } else {
      var steps := [Open(0, t)] + Acts(0, READING) + Acts(0, [Callback]);
      InstallOverStateTears(root, t);
      ActsSpare(root, 0, READING);
      ActsSpare(root, 0, [Callback]);
      assert forall step | step in steps :: Spares(root, step) || (step.Open? && step.transaction == t);
    }
  }

  lemma DroppingSpares(root: I.Path, step: Step)
    requires step in Dropping(root)
    ensures Spares(root, step)
  {
    ActsSpare(root, 0, WHOLE_TURN);
    ActsSpare(root, 0, [Unlock]);
  }

  lemma LateDeletesSpare(root: I.Path, step: Step)
    ensures step in StateDeletedLate(root) ==> Spares(root, step) || (step.Advance? && step.action == Delete(StateFilePlace))
    ensures step in LockDeletedLate(root) ==> Spares(root, step) || (step.Advance? && step.action == Delete(LockFilePlace))
  {
    if step in Dropping(root) {
      DroppingSpares(root, step);
    }
    ActsSpare(root, 1, WHOLE_TURN);
    ActsSpare(root, 1, READING);
    ActsSpare(root, 2, WHOLE_TURN);
    ActsSpare(root, 1, [Callback] + FINISHING);
  }

  /**
   Runs whose late deletes, if not elsewhere, all fall at the given place, are serial exactly when that
   place is neither state.json nor its lock file.
   */
  lemma DeleteGuardIsExact(root: I.Path, at: Place)
    ensures (forall file, steps | Parsed(file).Some? && (forall step | step in steps :: Spares(root, step) || (step.Advance? && step.action == Delete(at))) ::
               Serial(root, file, steps))
      <==> at.Other?
  {
    match at
    case Other =>
      forall file, steps | Parsed(file).Some? && forall step | step in steps :: Spares(root, step) || (step.Advance? && step.action == Delete(at))
        ensures Serial(root, file, steps)
      {
        assert forall step | step in steps :: Spares(root, step);
        FileIsFoldOfCommitted(root, file, steps);
      }
    case StateFilePlace =>
      DeletingStateLoses(root);
      forall step | step in StateDeletedLate(root) ensures Spares(root, step) || (step.Advance? && step.action == Delete(at)) {
        LateDeletesSpare(root, step);
      }
      assert Parsed(Whole(I.CURRENT_STATE_VERSION, Recorded(I.StatePath(root)))).Some?;
    case LockFilePlace =>
      DeletingLockLoses(root);
      forall step | step in LockDeletedLate(root) ensures Spares(root, step) || (step.Advance? && step.action == Delete(at)) {
        LateDeletesSpare(root, step);
      }
      assert Parsed(Whole(I.CURRENT_STATE_VERSION, Recorded(LockPath(root)))).Some?;
  }
}
