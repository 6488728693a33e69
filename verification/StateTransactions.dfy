/**
 Concurrent read-modify-write cycles on state.json by separate processes: each opens and locks
 the lock file, reads the state, applies its change, writes a temporary file, renames it over the
 state file and unlocks. Any process may fail or crash at any step; the system then drops its lock. The
 machine may go down as well: then every process ends and files not yet synced lose their content.
 A lock belongs to the lock file's inode, which an install can replace and a removal unlink.
 */
module StateTransactions {
  import opened Prelude
  import opened PluginInstall

  /**
   What a process wants done to the records; Put and Drop are the state changes of Install and Remove.
   An install from outside the root copies its binary first.
   */
  datatype Transaction =
    | Put(name: string, entry: InstalledPlugin, copiedTo: Option<Path>)
    | Drop(name: string, root: Path, home: Option<Path>)
    | Overwrite(plugins: Plugins)

  /** The callback run under the lock; None where it returns an error. */
  function Changed(t: Transaction, plugins: Plugins): Option<Plugins> {
    match t
    case Put(name, entry, copiedTo) =>
      if copiedTo.Some? && Taken(plugins, name, copiedTo.value) then None
      else Some(plugins[name := entry])
    case Drop(name, root, home) =>
      if name in plugins && ValidateBinaryPath(plugins[name].binary, root, home).Ok? then Some(plugins - {name}) else None
    case Overwrite(plugins') => Some(plugins')
  }

  /** What an install that gets as far as its state write leaves recorded is Put's change. */
  lemma InstallIsPut(files: Files, src: Path, name: string, root: Path, now: int)
    requires SourceError(files, src, name).None? && ReadState(files, root).Some?
    requires root <= src || !IsDirectory(files, Destination(src, root))
    ensures var put := Put(name, Entry(files, src, name, root, now), if root <= src then None else Some(Destination(src, root)));
      var after := AfterInstall(files, src, name, root, now, true);
      var changed := Changed(put, ReadState(files, root).value);
      if changed.Some? then ReadState(after, root) == changed else after == files
  {
    CleanFixesPaths(Destination(src, root));
  }

  /** What a removal leaves recorded is Drop's change, or nothing where Drop refuses, unless what it deletes is the state file. */
  lemma RemoveIsDrop(files: Files, name: string, root: Path, home: Option<Path>, cwd: Path)
    requires ReadState(files, root).Some? && ValidName(name)
    requires var plugins := ReadState(files, root).value;
      name in plugins ==>
        Target(WriteState(files, root, plugins - {name}), cwd, plugins[name].binary) != Ok(StatePath(root))
    ensures var after := AfterRemove(files, name, root, home, cwd, true);
      var changed := Changed(Drop(name, root, home), ReadState(files, root).value);
      if changed.Some? then ReadState(after, root) == changed else after == files
  {
  }

  /** The bytes under a name: a document in full, or anything else that does not parse. */
  datatype StateFile = Missing | Whole(version: int, plugins: Plugins) | Torn

  function Parsed(file: StateFile): Option<Plugins> {
    match file
    case Missing => Some(map[])
    case Whole(version, plugins) => if version == 0 || version == CURRENT_STATE_VERSION then Some(plugins) else None
    case Torn => None
  }

  /** What parses: a missing file as no plugins, and a whole document of version 0 or 1. */
  lemma ParsedIff(file: StateFile, plugins: Plugins)
    ensures Parsed(file) == Some(plugins)
      <==> (file == Missing && plugins == map[]) || file == Whole(0, plugins) || file == Whole(1, plugins)
  {
  }

  /** What a transaction makes of the plugins it finds: an install onto another's binary and a removal of nothing acceptable make nothing. */
  ghost predicate Makes(t: Transaction, plugins: Plugins, next: Plugins) {
    || (t.Put? && next == plugins[t.name := t.entry]
        && (t.copiedTo.Some? ==> forall owner :: !Owns(plugins, t.name, t.copiedTo.value, owner)))
    || (t.Drop? && t.name in plugins && next == plugins - {t.name}
        && exists path :: Accepts(plugins[t.name].binary, t.root, t.home, path))
    || (t.Overwrite? && next == t.plugins)
  }

  lemma ChangedIff(t: Transaction, plugins: Plugins, next: Plugins)
    ensures Changed(t, plugins) == Some(next) <==> Makes(t, plugins, next)
  {
    if t.Drop? && t.name in plugins {
      AcceptsIff(plugins[t.name].binary, t.root, t.home);
    }
    if t.Put? && t.copiedTo.Some? {
      TakenIff(plugins, t.name, t.copiedTo.value);
    }
  }

  function LockPath(root: Path): Path {
    root + ["state.json.lock"]
  }

  /** The two files the protocol itself uses, among all the places in the file system. */
  datatype Place = StateFilePlace | LockFilePlace | Other

  function PlaceOf(root: Path, path: Path): Place {
    if path == StatePath(root) then StateFilePlace else if path == LockPath(root) then LockFilePlace else Other
  }

  /** Where the transaction's callback copies a binary. */
  function CopyPlace(root: Path, t: Transaction): Place {
    if t.Put? && t.copiedTo.Some? then PlaceOf(root, t.copiedTo.value) else Other
  }

  datatype Stage =
    | Opened
    | Locked
    | Read(current: Plugins)
    | Applied(next: Plugins)
    | TempCreated(next: Plugins)
    | Encoded(next: Plugins)
    | Synced(next: Plugins)
    | Renamed
    | Deleting
    | Ended(committed: bool)

  /** inode is the lock file the process opened, and copies where its callback copies a binary. */
  datatype Process = Process(transaction: Transaction, copies: Place, inode: nat, stage: Stage)

  /** A file's content, and whether it has reached the disk. */
  datatype OnDisk = OnDisk(content: StateFile, synced: bool)

  /**
   lockFile is the inode now standing at the lock path and held the holder of each locked inode;
   temps holds the temporary file of each process that made one, and log the committed transactions in order.
   */
  datatype System = System(
    root: Path, file: OnDisk, temps: map<nat, OnDisk>,
    lockFile: Option<nat>, nextInode: nat, held: map<nat, nat>,
    processes: map<nat, Process>, log: seq<nat>)

  datatype Action =
    | Lock | ReadFile | Callback | CreateTemp | Encode | Sync | Rename | Unlock
    | Delete(at: Place)
    | Fail | Crash

  datatype Step = Open(process: nat, transaction: Transaction) | Advance(process: nat, action: Action) | Reboot

  function At(s: System, p: nat, stage: Stage): System
    requires p in s.processes
  {
    s.(processes := s.processes[p := s.processes[p].(stage := stage)])
  }

  /** Going on without the lock, dropped by the deferred unlock or by the system. */
  function Leave(s: System, p: nat, stage: Stage): System
    requires p in s.processes
  {
    var inode := s.processes[p].inode;
    At(s, p, stage).(held := if inode in s.held && s.held[inode] == p then s.held - {inode} else s.held)
  }

  /** A binary copied over a file of the protocol replaces it. */
  function Copied(s: System, at: Place): System {
    match at
    case LockFilePlace => s.(lockFile := Some(s.nextInode), nextInode := s.nextInode + 1)
    case StateFilePlace => s.(file := OnDisk(Torn, true))
    case Other => s
  }

  function Unlinked(s: System, at: Place): System {
    match at
    case LockFilePlace => s.(lockFile := None)
    case StateFilePlace => s.(file := OnDisk(Missing, true))
    case Other => s
  }

  function Advanced(s: System, p: nat, action: Action): System
    requires p in s.processes
  {
    var stage := s.processes[p].stage;
    match action
    case Lock =>
      if stage.Opened? && s.processes[p].inode !in s.held
      then At(s, p, Locked).(held := s.held[s.processes[p].inode := p]) else s
    case ReadFile =>
      if !stage.Locked? then s
      else if Parsed(s.file.content).Some? then At(s, p, Read(Parsed(s.file.content).value)) else Leave(s, p, Ended(false))
    case Callback =>
      if !stage.Read? then s
      else
        var next := Changed(s.processes[p].transaction, stage.current);
        if next.Some? then Copied(At(s, p, Applied(next.value)), s.processes[p].copies) else Leave(s, p, Ended(false))
    case CreateTemp =>
      if stage.Applied? then At(s, p, TempCreated(stage.next)).(temps := s.temps[p := OnDisk(Torn, false)]) else s
    case Encode =>
      if stage.TempCreated?
      then At(s, p, Encoded(stage.next)).(temps := s.temps[p := OnDisk(Whole(CURRENT_STATE_VERSION, stage.next), false)]) else s
    case Sync =>
      if stage.Encoded? && p in s.temps
      then At(s, p, Synced(stage.next)).(temps := s.temps[p := s.temps[p].(synced := true)]) else s
    case Rename =>
      if stage.Synced? && p in s.temps
      then At(s, p, Renamed).(file := s.temps[p], temps := s.temps - {p}, log := s.log + [p]) else s
    case Unlock =>
      if stage.Renamed? then Leave(s, p, if s.processes[p].transaction.Drop? then Deleting else Ended(true)) else s
    case Delete(at) =>
      // Outside the lock; at is where the system finds the removed record's path.
      if stage.Deleting? then Unlinked(At(s, p, Ended(true)), at) else s
    case Fail =>
      // An I/O error: nothing is renamed and the temporary file is removed.
      if stage.Renamed? || stage.Ended? then s
      else if stage.Deleting? then At(s, p, Ended(true))
      else Leave(s, p, Ended(false)).(temps := s.temps - {p})
    case Crash =>
      // The temporary file, however far it got, stays behind.
      if stage.Ended? then s else Leave(s, p, Ended(Committed(stage)))
  }

  function AfterPowerLoss(file: OnDisk): OnDisk {
    if file.synced then file else OnDisk(Torn, true)
  }

  predicate Committed(stage: Stage) {
    stage.Renamed? || stage.Deleting? || (stage.Ended? && stage.committed)
  }

  /** Opening creates the lock file when there is none. */
  function Opening(s: System, p: nat, t: Transaction): System {
    if s.lockFile.Some? then s.(processes := s.processes[p := Process(t, CopyPlace(s.root, t), s.lockFile.value, Opened)])
    else s.(processes := s.processes[p := Process(t, CopyPlace(s.root, t), s.nextInode, Opened)],
            lockFile := Some(s.nextInode), nextInode := s.nextInode + 1)
  }

  function Apply(s: System, step: Step): System {
    match step
    case Open(p, t) => if p in s.processes then s else Opening(s, p, t)
    case Advance(p, action) => if p in s.processes then Advanced(s, p, action) else s
    case Reboot =>
      s.(file := AfterPowerLoss(s.file), temps := map p | p in s.temps :: AfterPowerLoss(s.temps[p]), held := map[],
         processes := map p | p in s.processes :: s.processes[p].(stage := Ended(Committed(s.processes[p].stage))))
  }

  function Run(s: System, steps: seq<Step>): System {
    if steps == [] then s else Apply(Run(s, steps[..|steps| - 1]), steps[|steps| - 1])
  }

  function Start(root: Path, file: StateFile): System {
    System(root, OnDisk(file, true), map[], None, 0, map[], map[], [])
  }

  /** The step leaves state.json and its lock file alone: no binary is copied over either, and none is deleted there. */
  predicate Spares(root: Path, step: Step) {
    match step
    case Open(_, t) => CopyPlace(root, t).Other?
    case Advance(_, Delete(at)) => at.Other?
    case _ => true
  }

  // ---- The serial meaning -----------------------------------------------------------------

  /** The committed transactions applied one after another, each of which must accept. */
  function Fold(processes: map<nat, Process>, plugins: Plugins, log: seq<nat>): Option<Plugins> {
    if log == [] then Some(plugins)
    else
      var before, p := Fold(processes, plugins, log[..|log| - 1]), log[|log| - 1];
      if before.Some? && p in processes then Changed(processes[p].transaction, before.value) else None
  }

  /** Transactions never change once opened, so the fold of what is logged does not either. */
  lemma {:induction false} FoldKeeps(processes: map<nat, Process>, processes': map<nat, Process>, plugins: Plugins, log: seq<nat>)
    requires forall p | p in processes :: p in processes' && processes'[p].transaction == processes[p].transaction
    requires Fold(processes, plugins, log).Some?
    ensures Fold(processes', plugins, log) == Fold(processes, plugins, log)
  {
    if log != [] {
      FoldKeeps(processes, processes', plugins, log[..|log| - 1]);
    }
  }

  predicate Holding(stage: Stage) {
    !stage.Opened? && !stage.Deleting? && !stage.Ended?
  }

  /** What a process in the critical section knows of the state. */
  ghost predicate Knows(current: Plugins, p: nat, process: Process, temps: map<nat, OnDisk>) {
    match process.stage
    case Read(snapshot) => snapshot == current
    case Applied(next) => Changed(process.transaction, current) == Some(next)
    case TempCreated(next) => Changed(process.transaction, current) == Some(next)
    case Encoded(next) =>
      && Changed(process.transaction, current) == Some(next)
      && p in temps && temps[p].content == Whole(CURRENT_STATE_VERSION, next)
    case Synced(next) =>
      && Changed(process.transaction, current) == Some(next)
      && p in temps && temps[p] == OnDisk(Whole(CURRENT_STATE_VERSION, next), true)
    case _ => true
  }

  /** All processes opened the lock file that stands there, and a lock's one holder is in the critical section. */
  ghost predicate Exclusive(s: System) {
    && (forall p | p in s.processes :: s.lockFile == Some(s.processes[p].inode))
    && (forall p | p in s.processes && Holding(s.processes[p].stage) ::
          s.processes[p].inode in s.held && s.held[s.processes[p].inode] == p)
    && (forall i | i in s.held :: s.held[i] in s.processes && s.processes[s.held[i]].inode == i && Holding(s.processes[s.held[i]].stage))
  }

  /** No open transaction copies a binary over the files of the protocol. */
  ghost predicate CopiesSpare(s: System) {
    forall p | p in s.processes :: s.processes[p].copies.Other?
  }

  ghost predicate LoggedOnce(s: System) {
    && (forall p | p in s.log :: p in s.processes && Committed(s.processes[p].stage))
    && (forall p | p in s.processes && Committed(s.processes[p].stage) :: p in s.log)
    && (forall i, j | 0 <= i < j < |s.log| :: s.log[i] != s.log[j])
  }

  ghost predicate Invariant(initial: Plugins, s: System) {
    && Exclusive(s) && CopiesSpare(s) && LoggedOnce(s) && s.file.synced
    && Parsed(s.file.content).Some? && Fold(s.processes, initial, s.log) == Parsed(s.file.content)
    && forall p | p in s.processes :: Knows(Parsed(s.file.content).value, p, s.processes[p], s.temps)
  }

  /** A step of a process moves its own stage only, and commits it in the one place. */
  ghost predicate Moves(s: System, s': System, p: nat)
    requires p in s.processes
  {
    && s'.root == s.root && p in s'.processes
    && s'.processes == s.processes[p := s.processes[p].(stage := s'.processes[p].stage)]
    && if Committed(s.processes[p].stage) == Committed(s'.processes[p].stage) then s'.log == s.log
       else !Committed(s.processes[p].stage) && s'.log == s.log + [p]
  }

  lemma AdvanceMoves(s: System, p: nat, action: Action)
    requires p in s.processes
    ensures Moves(s, Advanced(s, p, action), p)
  {
  }

  lemma MovesKeepsLog(s: System, s': System, p: nat)
    requires LoggedOnce(s) && p in s.processes && Moves(s, s', p)
    ensures LoggedOnce(s')
  {
  }

  /** A step takes the process's lock as it enters the critical section and gives it back as it leaves. */
  ghost predicate MovesLock(s: System, s': System, p: nat)
    requires p in s.processes && p in s'.processes
  {
    var inode, was, now := s.processes[p].inode, Holding(s.processes[p].stage), Holding(s'.processes[p].stage);
    && s'.lockFile == s.lockFile
    && if was == now then s'.held == s.held
       else if now then inode !in s.held && s'.held == s.held[inode := p]
       else s'.held == if inode in s.held && s.held[inode] == p then s.held - {inode} else s.held
  }

  lemma AdvanceMovesLock(s: System, p: nat, action: Action)
    requires p in s.processes && s.processes[p].copies.Other? && Spares(s.root, Advance(p, action))
    requires !Holding(s.processes[p].stage) ==> forall i | i in s.held :: s.held[i] != p
    ensures MovesLock(s, Advanced(s, p, action), p)
  {
  }

  lemma MovesKeepsExclusive(s: System, s': System, p: nat)
    requires Exclusive(s) && p in s.processes && Moves(s, s', p) && MovesLock(s, s', p)
    ensures Exclusive(s')
  {
  }

  lemma AdvanceKeepsTransactions(s: System, p: nat, action: Action)
    requires p in s.processes
    ensures var s' := Advanced(s, p, action);
      && s'.root == s.root && s.log <= s'.log
      && forall q | q in s.processes :: q in s'.processes && s'.processes[q].transaction == s.processes[q].transaction
  {
    AdvanceMoves(s, p, action);
  }

  /** A step leaves file and log as they are, or renames the process's temporary file into place and logs it. */
  ghost predicate MovesFile(s: System, s': System, p: nat)
    requires p in s.processes
  {
    if s'.log == s.log then s'.file == s.file
    else s.processes[p].stage.Synced? && p in s.temps && s'.file == s.temps[p] && s'.log == s.log + [p]
  }

  lemma AdvanceMovesFile(s: System, p: nat, action: Action)
    requires p in s.processes && s.processes[p].copies.Other? && Spares(s.root, Advance(p, action))
    ensures MovesFile(s, Advanced(s, p, action), p)
  {
  }

  lemma MovesKeepsFold(initial: Plugins, s: System, s': System, p: nat)
    requires Invariant(initial, s) && p in s.processes && Moves(s, s', p) && MovesFile(s, s', p)
    ensures s'.file.synced && Parsed(s'.file.content).Some? && Fold(s'.processes, initial, s'.log) == Parsed(s'.file.content)
  {
    FoldKeeps(s.processes, s'.processes, initial, s.log);
    assert Knows(Parsed(s.file.content).value, p, s.processes[p], s.temps);
    if s'.log != s.log {
      assert s'.log[..|s'.log| - 1] == s.log;
    }
  }

  lemma AdvanceKeepsFold(initial: Plugins, s: System, p: nat, action: Action)
    requires Invariant(initial, s) && p in s.processes && Spares(s.root, Advance(p, action))
    ensures var s' := Advanced(s, p, action);
      s'.file.synced && Parsed(s'.file.content).Some? && Fold(s'.processes, initial, s'.log) == Parsed(s'.file.content)
  {
    AdvanceMoves(s, p, action);
    AdvanceMovesFile(s, p, action);
    MovesKeepsFold(initial, s, Advanced(s, p, action), p);
  }

  lemma AdvanceKeepsOwnKnowledge(s: System, p: nat, action: Action)
    requires p in s.processes && s.processes[p].copies.Other? && Spares(s.root, Advance(p, action))
    requires Parsed(s.file.content).Some? && Knows(Parsed(s.file.content).value, p, s.processes[p], s.temps)
    ensures var s' := Advanced(s, p, action);
      Parsed(s'.file.content).Some? && Knows(Parsed(s'.file.content).value, p, s'.processes[p], s'.temps)
  {
  }

  /** A step of p changes the file only while p holds the lock, and no temporary file but its own. */
  lemma AdvanceSparesOthers(s: System, p: nat, action: Action)
    requires p in s.processes && s.processes[p].copies.Other? && Spares(s.root, Advance(p, action))
    ensures var s' := Advanced(s, p, action);
      && (Holding(s.processes[p].stage) || s'.file == s.file)
      && s'.temps - {p} == s.temps - {p}
  {
  }

  lemma AdvanceKeepsKnowledge(s: System, p: nat, action: Action, q: nat)
    requires Exclusive(s) && CopiesSpare(s) && Spares(s.root, Advance(p, action))
    requires p in s.processes && q in s.processes && Parsed(s.file.content).Some?
    requires Knows(Parsed(s.file.content).value, p, s.processes[p], s.temps)
    requires Knows(Parsed(s.file.content).value, q, s.processes[q], s.temps)
    ensures var s' := Advanced(s, p, action);
      && q in s'.processes && Parsed(s'.file.content).Some?
      && Knows(Parsed(s'.file.content).value, q, s'.processes[q], s'.temps)
  {
    AdvanceKeepsOwnKnowledge(s, p, action);
    if q != p {
      AdvanceMoves(s, p, action);
      AdvanceSparesOthers(s, p, action);
      OtherStillKnows(s, Advanced(s, p, action), p, q);
    }
  }

  lemma OtherStillKnows(s: System, s': System, p: nat, q: nat)
    requires Exclusive(s) && p in s.processes && q in s.processes && q != p && Moves(s, s', p)
    requires Holding(s.processes[p].stage) || s'.file == s.file
    requires s'.temps - {p} == s.temps - {p}
    requires Parsed(s.file.content).Some? && Parsed(s'.file.content).Some?
    requires Knows(Parsed(s.file.content).value, q, s.processes[q], s.temps)
    ensures Knows(Parsed(s'.file.content).value, q, s'.processes[q], s'.temps)
  {
    assert q in s.temps ==> (s'.temps - {p})[q] == (s.temps - {p})[q] by {
      if q in s.temps {
        assert q in s.temps - {p};
      }
    }
  }

  lemma AdvanceKeepsAllKnowledge(s: System, p: nat, action: Action)
    requires Exclusive(s) && CopiesSpare(s) && Spares(s.root, Advance(p, action)) && p in s.processes && Parsed(s.file.content).Some?
    requires forall q | q in s.processes :: Knows(Parsed(s.file.content).value, q, s.processes[q], s.temps)
    ensures var s' := Advanced(s, p, action);
      && Parsed(s'.file.content).Some? && s'.processes.Keys == s.processes.Keys
      && forall q | q in s'.processes :: Knows(Parsed(s'.file.content).value, q, s'.processes[q], s'.temps)
  {
    AdvanceMoves(s, p, action);
    forall q | q in s.processes
      ensures Parsed(Advanced(s, p, action).file.content).Some?
      ensures Knows(Parsed(Advanced(s, p, action).file.content).value, q, Advanced(s, p, action).processes[q], Advanced(s, p, action).temps)
    {
      AdvanceKeepsKnowledge(s, p, action, q);
    }
  }

  lemma MovesKeepsRest(s: System, s': System, p: nat)
    requires p in s.processes && Moves(s, s', p) && MovesLock(s, s', p)
    requires Exclusive(s) && CopiesSpare(s) && LoggedOnce(s)
    ensures Exclusive(s') && CopiesSpare(s') && LoggedOnce(s')
  {
    MovesKeepsLog(s, s', p);
    MovesKeepsExclusive(s, s', p);
  }

  lemma AdvanceKeepsInvariant(initial: Plugins, s: System, p: nat, action: Action)
    requires Invariant(initial, s) && p in s.processes && Spares(s.root, Advance(p, action))
    ensures Invariant(initial, Advanced(s, p, action))
  {
    AdvanceMoves(s, p, action);
    AdvanceMovesLock(s, p, action);
    MovesKeepsRest(s, Advanced(s, p, action), p);
    AdvanceKeepsFold(initial, s, p, action);
    AdvanceKeepsAllKnowledge(s, p, action);
  }

  lemma OpenKeepsExclusive(s: System, p: nat, t: Transaction)
    requires Exclusive(s) && p !in s.processes
    ensures Exclusive(Opening(s, p, t))
  {
  }

  lemma OpenKeepsLog(s: System, p: nat, t: Transaction)
    requires LoggedOnce(s) && p !in s.processes
    ensures LoggedOnce(Opening(s, p, t))
  {
  }

  lemma OpenKeepsInvariant(initial: Plugins, s: System, p: nat, t: Transaction)
    requires Invariant(initial, s) && Spares(s.root, Open(p, t))
    ensures Invariant(initial, Apply(s, Open(p, t)))
  {
    if p !in s.processes {
      var s' := Opening(s, p, t);
      OpenKeepsExclusive(s, p, t);
      OpenKeepsLog(s, p, t);
      FoldKeeps(s.processes, s'.processes, initial, s.log);
    }
  }

  lemma RebootKeepsTables(s: System)
    requires Exclusive(s) && CopiesSpare(s) && LoggedOnce(s)
    ensures Exclusive(Apply(s, Reboot)) && CopiesSpare(Apply(s, Reboot)) && LoggedOnce(Apply(s, Reboot))
  {
  }

  lemma RebootKeepsInvariant(initial: Plugins, s: System)
    requires Invariant(initial, s)
    ensures Invariant(initial, Apply(s, Reboot))
  {
    var s' := Apply(s, Reboot);
    RebootKeepsTables(s);
    FoldKeeps(s.processes, s'.processes, initial, s.log);
  }

  lemma StepKeepsInvariant(initial: Plugins, s: System, step: Step)
    requires Invariant(initial, s) && Spares(s.root, step)
    ensures Invariant(initial, Apply(s, step)) && Apply(s, step).root == s.root
  {
    match step
    case Open(p, t) => OpenKeepsInvariant(initial, s, p, t);
    case Advance(p, action) =>
      if p in s.processes {
        AdvanceKeepsInvariant(initial, s, p, action);
        AdvanceMoves(s, p, action);
      }
    case Reboot => RebootKeepsInvariant(initial, s);
  }

  lemma {:induction false} RunKeepsInvariant(root: Path, file: StateFile, steps: seq<Step>)
    requires Parsed(file).Some? && forall step | step in steps :: Spares(root, step)
    ensures Invariant(Parsed(file).value, Run(Start(root, file), steps)) && Run(Start(root, file), steps).root == root
  {
    if steps != [] {
      RunKeepsInvariant(root, file, steps[..|steps| - 1]);
      var s, step := Run(Start(root, file), steps[..|steps| - 1]), steps[|steps| - 1];
      assert step in steps;
      StepKeepsInvariant(Parsed(file).value, s, step);
    }
  }

  // ---- Serializable and crash-atomic ------------------------------------------------------

  /**
   Under any interleaving, with failures and crashes anywhere, the state file parses and is the
   fold of the committed transactions in the order they held the lock; a process is in that order,
   once, exactly when its rename happened, even if it crashed before unlocking.
   */
  lemma FileIsFoldOfCommitted(root: Path, file: StateFile, steps: seq<Step>)
    requires Parsed(file).Some? && forall step | step in steps :: Spares(root, step)
    ensures var s := Run(Start(root, file), steps);
      && Parsed(s.file.content).Some? && Parsed(s.file.content) == Fold(s.processes, Parsed(file).value, s.log)
      && (forall p | p in s.processes :: Committed(s.processes[p].stage) <==> p in s.log)
      && (forall i, j | 0 <= i < j < |s.log| :: s.log[i] != s.log[j])
  {
    RunKeepsInvariant(root, file, steps);
  }

  ghost predicate Stuck(file: StateFile, s: System) {
    && s.file == OnDisk(file, true) && s.log == []
    && forall p | p in s.processes ::
      s.processes[p].stage.Opened? || s.processes[p].stage.Locked? || s.processes[p].stage == Ended(false)
  }

  lemma StepKeepsStuck(file: StateFile, s: System, step: Step)
    requires Parsed(file).None? && Stuck(file, s)
    ensures Stuck(file, Apply(s, step))
  {
  }

  /** A state file that does not parse is never touched, and no transaction gets past reading it. */
  lemma {:induction false} UnreadableFileIsKept(root: Path, file: StateFile, steps: seq<Step>)
    requires Parsed(file).None?
    ensures Stuck(file, Run(Start(root, file), steps))
  {
    if steps != [] {
      UnreadableFileIsKept(root, file, steps[..|steps| - 1]);
      StepKeepsStuck(file, Run(Start(root, file), steps[..|steps| - 1]), steps[|steps| - 1]);
    }
  }

  ghost predicate Grows(s: System, s': System) {
    && s.log <= s'.log
    && forall p | p in s.processes :: p in s'.processes && s'.processes[p].transaction == s.processes[p].transaction
  }

  lemma StepGrows(s: System, step: Step)
    ensures Grows(s, Apply(s, step))
  {
    if step.Advance? && step.process in s.processes {
      AdvanceKeepsTransactions(s, step.process, step.action);
    }
  }

  lemma {:induction false} RunGrows(root: Path, file: StateFile, steps: seq<Step>, i: nat)
    requires i <= |steps|
    ensures Grows(Run(Start(root, file), steps[..i]), Run(Start(root, file), steps))
    decreases |steps|
  {
    if i == |steps| {
      assert steps[..i] == steps;
    } else {
      var before := steps[..|steps| - 1];
      assert before[..i] == steps[..i];
      RunGrows(root, file, before, i);
      StepGrows(Run(Start(root, file), before), steps[|steps| - 1]);
    }
  }

  /** A read without the lock, at any moment, sees the fold of the first k transactions the run will have committed. */
  lemma UnlockedReadSeesAPrefix(root: Path, file: StateFile, steps: seq<Step>, i: nat)
    requires Parsed(file).Some? && i <= |steps| && forall step | step in steps :: Spares(root, step)
    ensures var s := Run(Start(root, file), steps);
      var k := |Run(Start(root, file), steps[..i]).log|;
      && k <= |s.log|
      && Parsed(Run(Start(root, file), steps[..i]).file.content) == Fold(s.processes, Parsed(file).value, s.log[..k])
  {
    var seen, s := Run(Start(root, file), steps[..i]), Run(Start(root, file), steps);
    RunKeepsInvariant(root, file, steps[..i]);
    RunGrows(root, file, steps, i);
    FoldKeeps(seen.processes, s.processes, Parsed(file).value, seen.log);
    assert seen.log == s.log[..|seen.log|];
  }

  predicate Touches(t: Transaction, name: string) {
    match t
    case Put(n, _, _) => n == name
    case Drop(n, _, _) => n == name
    case Overwrite(_) => true
  }

  lemma {:induction false} UntouchedNameStays(processes: map<nat, Process>, initial: Plugins, log: seq<nat>, k: nat, name: string)
    requires k <= |log| && Fold(processes, initial, log).Some?
    requires forall i | k <= i < |log| :: log[i] in processes && !Touches(processes[log[i]].transaction, name)
    ensures Fold(processes, initial, log[..k]).Some?
    ensures var was, now := Fold(processes, initial, log[..k]).value, Fold(processes, initial, log).value;
      (name in was <==> name in now) && (name in was ==> now[name] == was[name])
    decreases |log|
  {
    if k == |log| {
      assert log[..k] == log;
    } else {
      assert log[..|log| - 1][..k] == log[..k];
      UntouchedNameStays(processes, initial, log[..|log| - 1], k, name);
    }
  }

  lemma PutStays(processes: map<nat, Process>, initial: Plugins, log: seq<nat>, k: nat)
    requires k < |log| && Fold(processes, initial, log).Some?
    requires log[k] in processes && processes[log[k]].transaction.Put?
    requires forall i | k < i < |log| ::
      log[i] in processes && !Touches(processes[log[i]].transaction, processes[log[k]].transaction.name)
    ensures var t, now := processes[log[k]].transaction, Fold(processes, initial, log).value;
      t.name in now && now[t.name] == t.entry
  {
    UntouchedNameStays(processes, initial, log, k + 1, processes[log[k]].transaction.name);
    assert log[..k + 1][..k] == log[..k];
  }

  /** No update is lost: a committed install stays recorded until a later transaction names its plugin or overwrites all. */
  lemma NoUpdateIsLost(root: Path, file: StateFile, steps: seq<Step>, k: nat)
    requires Parsed(file).Some? && forall step | step in steps :: Spares(root, step)
    requires var s := Run(Start(root, file), steps);
      && k < |s.log| && s.log[k] in s.processes && s.processes[s.log[k]].transaction.Put?
      && forall i | k < i < |s.log| ::
        s.log[i] in s.processes && !Touches(s.processes[s.log[i]].transaction, s.processes[s.log[k]].transaction.name)
    ensures var s := Run(Start(root, file), steps);
      var t := s.processes[s.log[k]].transaction;
      && Parsed(s.file.content).Some? && t.name in Parsed(s.file.content).value && Parsed(s.file.content).value[t.name] == t.entry
  {
    FileIsFoldOfCommitted(root, file, steps);
    var s := Run(Start(root, file), steps);
    PutStays(s.processes, Parsed(file).value, s.log, k);
  }
}
