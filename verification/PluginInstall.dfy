/**
 Installing, removing and verifying plugin binaries: the install records in state.json and the
 files they point at. Each operation runs under the state lock (StateTransactions), so here they
 follow one another.
 */
module PluginInstall {
  import opened Prelude

  // ---- Paths ------------------------------------------------------------------------------

  predicate Plain(segment: string) {
    segment != "" && segment != "." && segment != ".."
  }

  predicate Canonical(segments: seq<string>) {
    forall i | 0 <= i < |segments| :: Plain(segments[i])
  }

  /** A cleaned absolute path, as its segments. */
  type Path = segments: seq<string> | Canonical(segments)

  /** A path as a file spells it, split at the slashes; Home starts with "~". */
  datatype RawPath =
    | Blank
    | Home(segments: seq<string>)
    | Relative(segments: seq<string>)
    | Absolute(segments: seq<string>)

  /** filepath.Clean of an absolute path. */
  function Clean(segments: seq<string>): Path {
    if segments == [] then []
    else
      var before, last := Clean(segments[..|segments| - 1]), segments[|segments| - 1];
      if last == "" || last == "." then before
      else if last != ".." then before + [last]
      else if before == [] then [] else before[..|before| - 1]
  }

  lemma {:induction false} CleanFixesPaths(p: Path)
    ensures Clean(p) == p
  {
    if p != [] {
      var before: Path, last := p[..|p| - 1], p[|p| - 1];
      CleanFixesPaths(before);
      assert Plain(last) && p == before + [last];
    }
  }

  datatype PathError = Required | NoHomeDirectory | NotAbsolute | OutsideRoot | RootItself

  /** validateBinaryPath. */
  function ValidateBinaryPath(binary: RawPath, root: Path, home: Option<Path>): Result<Path, PathError> {
    if binary.Blank? then Err(Required)
    else if binary.Home? && home.None? then Err(NoHomeDirectory)
    else if binary.Relative? then Err(NotAbsolute)
    else
      var clean := Clean(if binary.Home? then home.value + binary.segments else binary.segments);
      if !(root <= clean) then Err(OutsideRoot)
      else if clean == root then Err(RootItself)
      else Ok(clean)
  }

  /** How far below its start a relative path ends. */
  function Depth(relative: seq<string>): int {
    if relative == [] then 0
    else
      var last := relative[|relative| - 1];
      Depth(relative[..|relative| - 1]) + if last == ".." then -1 else if Plain(last) then 1 else 0
  }

  lemma CleanAppend(before: seq<string>, last: string)
    ensures var p := Clean(before);
      Clean(before + [last]) == if last == "" || last == "." then p
                                else if last != ".." then p + [last] else if p == [] then [] else p[..|p| - 1]
  {
    assert (before + [last])[..|before|] == before;
  }

  lemma {:induction false} CleanBelow(root: Path, relative: seq<string>)
    requires forall i | 0 <= i <= |relative| :: Depth(relative[..i]) >= 0
    ensures Clean(root + relative) == root + Clean(relative) && |Clean(relative)| == Depth(relative)
  {
    if relative == [] {
      assert root + relative == root;
      CleanFixesPaths(root);
    } else {
      var before, last := relative[..|relative| - 1], relative[|relative| - 1];
      assert forall i | 0 <= i <= |before| :: before[..i] == relative[..i];
      assert relative[..|relative|] == relative && relative == before + [last];
      CleanBelow(root, before);
      assert root + relative == (root + before) + [last];
      CleanAppend(root + before, last);
      CleanAppend(before, last);
    }
  }

  /** A path written from the root that never climbs above it is accepted, cleaned, unless it comes back to the root. */
  lemma DescendingPathIsAccepted(root: Path, relative: seq<string>, home: Option<Path>)
    requires forall i | 0 <= i <= |relative| :: Depth(relative[..i]) >= 0
    ensures ValidateBinaryPath(Absolute(root + relative), root, home)
      == if Depth(relative) == 0 then Err(RootItself) else Ok(root + Clean(relative))
  {
    CleanBelow(root, relative);
    assert relative[..|relative|] == relative;
  }

  // ---- Files ------------------------------------------------------------------------------

  /** What a file holds. SHA-256 is injective, so a content stands for its own hash. */
  datatype Content = Bytes(text: string) | StateJson(version: int, plugins: Plugins)

  datatype InstalledPlugin = InstalledPlugin(binary: RawPath, sha256: Content, installedAt: int)

  type Plugins = map<string, InstalledPlugin>

  datatype Node = File(content: Content) | Directory | Symlink(target: Path)

  type Files = map<Path, Node>

  predicate HasChildren(files: Files, path: Path) {
    exists p | p in files :: path < p
  }

  /** The top directory, one listed as such, or a path with something below it. */
  predicate IsDirectory(files: Files, path: Path) {
    path == [] || (path in files && files[path].Directory?) || HasChildren(files, path)
  }

  predicate IsLink(files: Files, path: Path) {
    path in files && files[path].Symlink?
  }

  datatype WalkError = NoEntry | NotDirectory | TooManyLinks | DotEntry

  const MAX_LINKS := 40

  /** Where the system finds segments from a directory; a link in the last place is followed only on request. */
  function Walk(files: Files, at: Path, segments: seq<string>, follow: bool, links: nat): Result<Path, WalkError>
    decreases links, |segments|
  {
    if segments == [] then Ok(at)
    else if segments[0] == "" || segments[0] == "." then Walk(files, at, segments[1..], follow, links)
    else if segments[0] == ".." then Walk(files, if at == [] then [] else at[..|at| - 1], segments[1..], follow, links)
    else
      var next: Path := at + [segments[0]];
      if IsLink(files, next) && (follow || |segments| > 1) then
        if links == 0 then Err(TooManyLinks)
        else Walk(files, [], files[next].target + segments[1..], follow, links - 1)
      else if |segments| == 1 || IsDirectory(files, next) then Walk(files, next, segments[1..], follow, links)
      else if next in files then Err(NotDirectory) else Err(NoEntry)
  }

  /** Where a path as spelled leads a process in the working directory cwd; the system does not expand "~". */
  function Locate(files: Files, cwd: Path, binary: RawPath, follow: bool): Result<Path, WalkError> {
    match binary
    case Blank => Err(NoEntry)
    case Home(segments) => Walk(files, cwd, ["~"] + segments, follow, MAX_LINKS)
    case Relative(segments) => Walk(files, cwd, segments, follow, MAX_LINKS)
    case Absolute(segments) => Walk(files, [], segments, follow, MAX_LINKS)
  }

  /** No link on the way to path. */
  predicate LinkFree(files: Files, path: Path) {
    forall i | 0 < i < |path| :: !IsLink(files, path[..i])
  }

  lemma {:induction false} Descend(files: Files, at: Path, rest: Path, k: nat, follow: bool, links: nat)
    requires k <= |rest| && (follow || k < |rest| || k == 0)
    requires forall i | 0 < i <= k :: !IsLink(files, at + rest[..i]) && (i < |rest| ==> IsDirectory(files, at + rest[..i]))
    ensures Walk(files, at, rest, follow, links) == Walk(files, at + rest[..k], rest[k..], follow, links)
    decreases k
  {
    if k == 0 {
      assert at + rest[..0] == at && rest[0..] == rest;
    } else {
      Descend(files, at, rest, k - 1, follow, links);
      var here := at + rest[..k - 1];
      assert rest[k - 1..][0] == rest[k - 1] && rest[k - 1..][1..] == rest[k..];
      assert here + [rest[k - 1]] == at + rest[..k];
      assert Plain(rest[k - 1]);
    }
  }

  /** With no link on the way, a path to something leads there. */
  lemma LinkFreeLeadsThere(files: Files, path: Path, follow: bool)
    requires LinkFree(files, path) && path != [] && path in files && (follow ==> !IsLink(files, path))
    ensures Walk(files, [], path, follow, MAX_LINKS) == Ok(path)
  {
    var k := |path| - 1;
    forall i | 0 < i <= k ensures !IsLink(files, [] + path[..i]) && IsDirectory(files, [] + path[..i]) {
      assert [] + path[..i] == path[..i] && path[..i] < path;
    }
    Descend(files, [], path, k, follow, MAX_LINKS);
    assert [] + path[..k] == path[..k] && path[k..] == [path[k]] && path[..k] + [path[k]] == path;
    assert Plain(path[k]);
  }

  const CURRENT_STATE_VERSION := 1

  function StatePath(root: Path): Path {
    root + ["state.json"]
  }

  /** ReadState: a missing file is an empty state; version 0 counts as current. */
  function ReadState(files: Files, root: Path): Option<Plugins> {
    if StatePath(root) !in files then Some(map[])
    else
      match files[StatePath(root)]
      case File(StateJson(version, plugins)) =>
        if version == 0 || version == CURRENT_STATE_VERSION then Some(plugins) else None
      case _ => None
  }

  function WriteState(files: Files, root: Path, plugins: Plugins): Files {
    files[StatePath(root) := File(StateJson(CURRENT_STATE_VERSION, plugins))]
  }

  /** sha256File, which opens the path as recorded. */
  function Hash(files: Files, cwd: Path, binary: RawPath): Option<Content> {
    var at := Locate(files, cwd, binary, true);
    if at.Ok? && at.value in files && files[at.value].File? then Some(files[at.value].content) else None
  }

  predicate VerifyInstalled(files: Files, cwd: Path, entry: InstalledPlugin) {
    Hash(files, cwd, entry.binary) == Some(entry.sha256)
  }

  /** Followed over every link, the path leads there; a "~" is a name like any other. */
  ghost predicate OpensAt(files: Files, cwd: Path, binary: RawPath, path: Path) {
    || (binary.Home? && Walk(files, cwd, ["~"] + binary.segments, true, 40) == Ok(path))
    || (binary.Relative? && Walk(files, cwd, binary.segments, true, 40) == Ok(path))
    || (binary.Absolute? && Walk(files, [], binary.segments, true, 40) == Ok(path))
  }

  /** A record verifies exactly when its path leads to a file of the recorded hash. */
  lemma VerifiesIff(files: Files, cwd: Path, entry: InstalledPlugin)
    ensures VerifyInstalled(files, cwd, entry) <==>
      exists path :: OpensAt(files, cwd, entry.binary, path) && path in files && files[path] == File(entry.sha256)
  {
    if VerifyInstalled(files, cwd, entry) {
      assert OpensAt(files, cwd, entry.binary, Locate(files, cwd, entry.binary, true).value);
    }
  }

  // ---- Install ----------------------------------------------------------------------------

  predicate ValidName(name: string) {
    && 1 <= |name| <= 32 && 'a' <= name[0] <= 'z'
    && forall i | 1 <= i < |name| :: 'a' <= name[i] <= 'z' || '0' <= name[i] <= '9' || name[i] == '-'
  }

  datatype InstallError =
    | InvalidName | SourceMissing | SourceIsSymlink | SourceIsDirectory
    | BadState | PathTaken(owner: string) | CopyFailed | StateNotWritten

  predicate RecordedAt(entry: InstalledPlugin, path: Path) {
    entry.binary.Absolute? && Clean(entry.binary.segments) == path
  }

  /** Some other plugin's binary lives at path. */
  predicate Taken(plugins: Plugins, name: string, path: Path) {
    exists other | other in plugins :: other != name && RecordedAt(plugins[other], path)
  }

  /** Where the source is, its own last link not followed. */
  function Source(files: Files, src: Path): Result<Path, WalkError> {
    Locate(files, [], Absolute(src), false)
  }

  /** The errors Install finds before it takes the lock. */
  function SourceError(files: Files, src: Path, name: string): (e: Option<InstallError>)
    ensures e.None? ==> src != [] && Source(files, src).Ok? && Source(files, src).value in files && files[Source(files, src).value].File?
  {
    var at := Source(files, src);
    if !ValidName(name) then Some(InvalidName)
    else if at.Err? then Some(SourceMissing)
    else if IsDirectory(files, at.value) then Some(SourceIsDirectory)
    else if at.value !in files then Some(SourceMissing)
    else if files[at.value].Symlink? then Some(SourceIsSymlink)
    else None
  }

  function SourceContent(files: Files, src: Path, name: string): Content
    requires SourceError(files, src, name).None?
  {
    files[Source(files, src).value].content
  }

  function Destination(src: Path, root: Path): Path
    requires src != []
  {
    if root <= src then src else root + [src[|src| - 1]]
  }

  /** The files once the binary is in place, or None where the copy is refused. */
  function Placed(files: Files, plugins: Plugins, src: Path, name: string, root: Path): Option<Files>
    requires SourceError(files, src, name).None?
  {
    var dest := Destination(src, root);
    if root <= src then Some(files)
    else if Taken(plugins, name, dest) || IsDirectory(files, dest) then None
    else Some(files[dest := File(SourceContent(files, src, name))])
  }

  function Entry(files: Files, src: Path, name: string, root: Path, now: int): InstalledPlugin
    requires SourceError(files, src, name).None?
  {
    InstalledPlugin(Absolute(Destination(src, root)), SourceContent(files, src, name), now)
  }

  /** The files after Install; written says whether the final state write succeeds. */
  function AfterInstall(files: Files, src: Path, name: string, root: Path, now: int, written: bool): Files {
    if SourceError(files, src, name).Some? || ReadState(files, root).None? then files
    else
      var plugins := ReadState(files, root).value;
      var placed := Placed(files, plugins, src, name, root);
      if placed.None? then files
      else if !written then placed.value
      else WriteState(placed.value, root, plugins[name := Entry(files, src, name, root, now)])
  }

  datatype RemoveError = InvalidPluginName | BadStateFile | NotInstalled | Escapes(reason: PathError) | NotWritten | BinaryLeft

  /** The segments the system goes by; it does not expand "~". */
  function Spelled(binary: RawPath): seq<string> {
    match binary
    case Blank => []
    case Home(segments) => ["~"] + segments
    case Relative(segments) => segments
    case Absolute(segments) => segments
  }

  /** Without the slashes at its end. */
  function Trimmed(segments: seq<string>): seq<string> {
    if segments != [] && segments[|segments| - 1] == "" then Trimmed(segments[..|segments| - 1]) else segments
  }

  /** Where unlink and rmdir act: they refuse a path that ends in a dot entry and, after a slash, anything but a directory. */
  function Target(files: Files, cwd: Path, binary: RawPath): Result<Path, WalkError> {
    var segments := Trimmed(Spelled(binary));
    var at := Walk(files, if binary.Absolute? then [] else cwd, segments, false, MAX_LINKS);
    if at.Err? then at
    else if segments == [] || !Plain(segments[|segments| - 1]) then Err(DotEntry)
    else if segments != Spelled(binary) && at.value in files && !IsDirectory(files, at.value) then Err(NotDirectory)
    else at
  }

  /** os.Remove: what is at the path goes, unless it has something below it. */
  function Deleted(files: Files, cwd: Path, binary: RawPath): Files {
    var at := Target(files, cwd, binary);
    if at.Ok? && !HasChildren(files, at.value) then files - {at.value} else files
  }

  function AfterRemove(files: Files, name: string, root: Path, home: Option<Path>, cwd: Path, written: bool): Files {
    var state := ReadState(files, root);
    if !ValidName(name) || state.None? || name !in state.value
       || ValidateBinaryPath(state.value[name].binary, root, home).Err? || !written
    then files
    else Deleted(WriteState(files, root, state.value - {name}), cwd, state.value[name].binary)
  }

  // ---- The two operations, written out ------------------------------------------------------

  /** ^[a-z][a-z0-9-]{0,31}$ */
  predicate NameMatches(name: string) {
    && name != "" && 'a' <= name[0] <= 'z'
    && |name[1..]| <= 31 && forall c | c in name[1..] :: 'a' <= c <= 'z' || '0' <= c <= '9' || c == '-'
  }

  /** state.json holds those plugins: it is missing and there are none, or lists them under version 0 or 1. */
  ghost predicate Lists(files: Files, root: Path, plugins: Plugins) {
    if root + ["state.json"] !in files then plugins == map[]
    else files[root + ["state.json"]] == File(StateJson(0, plugins)) || files[root + ["state.json"]] == File(StateJson(1, plugins))
  }

  /** The files with those plugins written to state.json. */
  function Listing(files: Files, root: Path, plugins: Plugins): Files {
    files[root + ["state.json"] := File(StateJson(1, plugins))]
  }

  /** Another plugin, owner, is recorded to have its binary at path. */
  ghost predicate Owns(plugins: Plugins, name: string, path: Path, owner: string) {
    owner in plugins && owner != name && plugins[owner].binary.Absolute? && Clean(plugins[owner].binary.segments) == path
  }

  /** The record is put down, or, where the state cannot be written, only the binary stays. */
  ghost predicate Records(placed: Files, after: Files, root: Path, plugins: Plugins, name: string, entry: InstalledPlugin,
                          written: bool, r: Result<InstalledPlugin, InstallError>)
  {
    if written then r == Ok(entry) && after == Listing(placed, root, plugins[name := entry])
    else r == Err(StateNotWritten) && after == placed
  }

  /** What Install does with a file of that content at src, given the plugins listed. */
  ghost predicate InstallsFile(before: Files, after: Files, src: Path, content: Content, plugins: Plugins, name: string, root: Path,
                               now: int, written: bool, r: Result<InstalledPlugin, InstallError>)
    requires src != []
  {
    if root <= src then
      // In place.
      Records(before, after, root, plugins, name, InstalledPlugin(Absolute(src), content, now), written, r)
    else
      var dest: Path := root + [src[|src| - 1]];
      if exists owner :: Owns(plugins, name, dest, owner) then
        r.Err? && r.error.PathTaken? && Owns(plugins, name, dest, r.error.owner) && after == before
      else if IsDirectory(before, dest) then r == Err(CopyFailed) && after == before
      else Records(before[dest := File(content)], after, root, plugins, name, InstalledPlugin(Absolute(dest), content, now), written, r)
  }

  /** Install, case by case. */
  ghost predicate Installs(before: Files, after: Files, src: Path, name: string, root: Path, now: int, written: bool,
                           r: Result<InstalledPlugin, InstallError>)
  {
    var at := Walk(before, [], src, false, 40);
    if !NameMatches(name) then r == Err(InvalidName) && after == before
    else if at.Err? then r == Err(SourceMissing) && after == before
    else if IsDirectory(before, at.value) then r == Err(SourceIsDirectory) && after == before
    else if at.value !in before then r == Err(SourceMissing) && after == before
    else if before[at.value].Symlink? then r == Err(SourceIsSymlink) && after == before
    else if forall plugins :: !Lists(before, root, plugins) then r == Err(BadState) && after == before
    else
      && src != [] && before[at.value].File?
      && exists plugins :: Lists(before, root, plugins)
           && InstallsFile(before, after, src, before[at.value].content, plugins, name, root, now, written, r)
  }

  /** The path a record may be removed at: the binary's, cleaned, strictly below the root. */
  ghost predicate Accepts(binary: RawPath, root: Path, home: Option<Path>, path: Path) {
    && root < path
    && ((binary.Absolute? && path == Clean(binary.segments))
        || (binary.Home? && home.Some? && path == Clean(home.value + binary.segments)))
  }

  lemma AcceptsIff(binary: RawPath, root: Path, home: Option<Path>)
    ensures forall path :: ValidateBinaryPath(binary, root, home) == Ok(path) <==> Accepts(binary, root, home, path)
    ensures ValidateBinaryPath(binary, root, home) == Err(Required) <==> binary.Blank?
    ensures ValidateBinaryPath(binary, root, home) == Err(NoHomeDirectory) <==> binary.Home? && home.None?
    ensures ValidateBinaryPath(binary, root, home) == Err(NotAbsolute) <==> binary.Relative?
    ensures ValidateBinaryPath(binary, root, home) == Err(RootItself) <==>
      (binary.Absolute? && Clean(binary.segments) == root) || (binary.Home? && home.Some? && Clean(home.value + binary.segments) == root)
  {
  }

  /** Remove, case by case. */
  ghost predicate Removes(before: Files, after: Files, name: string, root: Path, home: Option<Path>, cwd: Path, written: bool,
                          r: Result<(), RemoveError>)
  {
    if !NameMatches(name) then r == Err(InvalidPluginName) && after == before
    else if forall plugins :: !Lists(before, root, plugins) then r == Err(BadStateFile) && after == before
    else exists plugins :: Lists(before, root, plugins) && RemovesFrom(before, after, plugins, name, root, home, cwd, written, r)
  }

  ghost predicate RemovesFrom(before: Files, after: Files, plugins: Plugins, name: string, root: Path, home: Option<Path>, cwd: Path,
                              written: bool, r: Result<(), RemoveError>)
  {
    if name !in plugins then r == Err(NotInstalled) && after == before
    else if forall path :: !Accepts(plugins[name].binary, root, home, path) then r.Err? && r.error.Escapes? && after == before
    else if !written then r == Err(NotWritten) && after == before
    else DeletesBinary(Listing(before, root, plugins - {name}), after, cwd, plugins[name].binary, r)
  }

  /** slashes is nothing but what slashes at the end of a path leave, and core has none of them. */
  predicate Cut(core: seq<string>, slashes: seq<string>) {
    (forall i | 0 <= i < |slashes| :: slashes[i] == "") && (core == [] || core[|core| - 1] != "")
  }

  /** The path as the system reads it, "~" being a name. */
  predicate ReadAs(binary: RawPath, segments: seq<string>) {
    || (binary.Absolute? && binary.segments == segments) || (binary.Relative? && binary.segments == segments)
    || (binary.Home? && ["~"] + binary.segments == segments) || (binary.Blank? && segments == [])
  }

  /** Where unlink or rmdir acts: where the path leads without following its last link, unless it ends in a dot entry, or in a slash after a file. */
  ghost predicate ActsAt(files: Files, cwd: Path, binary: RawPath, path: Path) {
    exists core, slashes :: Cut(core, slashes) && ReadAs(binary, core + slashes)
      && core != [] && core[|core| - 1] != "." && core[|core| - 1] != ".."
      && Walk(files, if binary.Absolute? then [] else cwd, core, false, 40) == Ok(path)
      && (slashes != [] && path in files ==> IsDirectory(files, path))
  }

  /** On the way there something is missing. */
  ghost predicate LeadsNowhere(files: Files, cwd: Path, binary: RawPath) {
    exists core, slashes :: Cut(core, slashes) && ReadAs(binary, core + slashes)
      && Walk(files, if binary.Absolute? then [] else cwd, core, false, 40) == Err(NoEntry)
  }

  /** The file or empty directory at the record's path goes; nothing being there is no error. */
  ghost predicate DeletesBinary(stated: Files, after: Files, cwd: Path, binary: RawPath, r: Result<(), RemoveError>) {
    if exists path: Path :: ActsAt(stated, cwd, binary, path) then
      exists path: Path :: ActsAt(stated, cwd, binary, path) && DeletesAt(stated, after, path, r)
    else after == stated && r == (if LeadsNowhere(stated, cwd, binary) then Ok(()) else Err(BinaryLeft))
  }

  ghost predicate DeletesAt(stated: Files, after: Files, path: Path, r: Result<(), RemoveError>) {
    if exists p :: p in stated && path < p then after == stated && r == Err(BinaryLeft)
    else after == stated - {path} && r == Ok(())
  }

  lemma {:induction false} TrimmedIsCore(core: seq<string>, slashes: seq<string>)
    requires Cut(core, slashes)
    ensures Trimmed(core + slashes) == core
  {
    if slashes == [] {
      assert core + slashes == core;
    } else {
      assert (core + slashes)[..|core + slashes| - 1] == core + slashes[..|slashes| - 1];
      TrimmedIsCore(core, slashes[..|slashes| - 1]);
    }
  }

  lemma {:induction false} SlashesAfter(segments: seq<string>) returns (slashes: seq<string>)
    ensures segments == Trimmed(segments) + slashes && Cut(Trimmed(segments), slashes)
  {
    slashes := [];
    if segments != [] && segments[|segments| - 1] == "" {
      slashes := SlashesAfter(segments[..|segments| - 1]);
      slashes := slashes + [""];
    }
  }

  /** A path is cut in one way only. */
  lemma OneCut(binary: RawPath, core: seq<string>, slashes: seq<string>, core': seq<string>, slashes': seq<string>)
    requires Cut(core, slashes) && ReadAs(binary, core + slashes) && Cut(core', slashes') && ReadAs(binary, core' + slashes')
    ensures core == core' && slashes == slashes'
  {
    TrimmedIsCore(core, slashes);
    TrimmedIsCore(core', slashes');
    assert core + slashes == core' + slashes';
    assert slashes == (core + slashes)[|core|..] && slashes' == (core' + slashes')[|core'|..];
  }

  lemma TheCut(binary: RawPath) returns (core: seq<string>, slashes: seq<string>)
    ensures core == Trimmed(Spelled(binary)) && Spelled(binary) == core + slashes && Cut(core, slashes) && ReadAs(binary, core + slashes)
  {
    core := Trimmed(Spelled(binary));
    slashes := SlashesAfter(Spelled(binary));
  }

  lemma TargetOf(files: Files, cwd: Path, binary: RawPath, core: seq<string>, slashes: seq<string>)
    requires core == Trimmed(Spelled(binary)) && Spelled(binary) == core + slashes
    ensures var at := Walk(files, if binary.Absolute? then [] else cwd, core, false, 40);
      Target(files, cwd, binary) ==
        if at.Err? then at
        else if core == [] || !Plain(core[|core| - 1]) then Err(DotEntry)
        else if slashes != [] && at.value in files && !IsDirectory(files, at.value) then Err(NotDirectory)
        else at
  {
    assert slashes == [] <==> core == Spelled(binary);
  }

  lemma ActsAtIff(files: Files, cwd: Path, binary: RawPath, path: Path)
    ensures Target(files, cwd, binary) == Ok(path) <==> ActsAt(files, cwd, binary, path)
  {
    var core, slashes := TheCut(binary);
    TargetOf(files, cwd, binary, core, slashes);
    forall core', slashes' | Cut(core', slashes') && ReadAs(binary, core' + slashes') ensures core' == core && slashes' == slashes {
      OneCut(binary, core, slashes, core', slashes');
    }
  }

  lemma LeadsNowhereIff(files: Files, cwd: Path, binary: RawPath)
    ensures Target(files, cwd, binary) == Err(NoEntry) <==> LeadsNowhere(files, cwd, binary)
  {
    var core, slashes := TheCut(binary);
    TargetOf(files, cwd, binary, core, slashes);
    forall core', slashes' | Cut(core', slashes') && ReadAs(binary, core' + slashes') ensures core' == core && slashes' == slashes {
      OneCut(binary, core, slashes, core', slashes');
    }
  }

  lemma DeletionOutcome(stated: Files, cwd: Path, binary: RawPath)
    ensures var at := Target(stated, cwd, binary);
      DeletesBinary(stated, Deleted(stated, cwd, binary), cwd, binary,
                    if at.Err? then (if at.error.NoEntry? then Ok(()) else Err(BinaryLeft))
                    else if HasChildren(stated, at.value) then Err(BinaryLeft) else Ok(()))
  {
    forall path ensures Target(stated, cwd, binary) == Ok(path) <==> ActsAt(stated, cwd, binary, path) {
      ActsAtIff(stated, cwd, binary, path);
    }
    LeadsNowhereIff(stated, cwd, binary);
    var at := Target(stated, cwd, binary);
    if at.Ok? {
      assert ActsAt(stated, cwd, binary, at.value);
    }
  }

  lemma NameMatchesIff(name: string)
    ensures NameMatches(name) <==> ValidName(name)
  {
    if name != "" {
      assert forall i | 1 <= i < |name| :: name[i] == name[1..][i - 1] && name[i] in name[1..];
    }
  }

  lemma TakenIff(plugins: Plugins, name: string, path: Path)
    ensures Taken(plugins, name, path) <==> exists owner :: Owns(plugins, name, path, owner)
  {
    if other :| other in plugins && other != name && RecordedAt(plugins[other], path) {
      assert Owns(plugins, name, path, other);
    }
    if owner :| Owns(plugins, name, path, owner) {
      assert RecordedAt(plugins[owner], path);
    }
  }

  lemma ListsIff(files: Files, root: Path)
    ensures forall plugins :: Lists(files, root, plugins) <==> ReadState(files, root) == Some(plugins)
  {
  }

  class Host {
    var files: Files

    constructor (files: Files)
      ensures this.files == files
    {
      this.files := files;
    }

    /** The first plugin, in whatever order the map yields them, that already owns the path. */
    method FindTaken(plugins: Plugins, name: string, path: Path) returns (owner: Option<string>)
      ensures owner.Some? <==> Taken(plugins, name, path)
      ensures owner.Some? ==> owner.value in plugins && owner.value != name && RecordedAt(plugins[owner.value], path)
    {
      var todo := plugins.Keys;
      while todo != {}
        invariant todo <= plugins.Keys
        invariant forall other | other in plugins.Keys - todo :: other == name || !RecordedAt(plugins[other], path)
      {
        var other :| other in todo;
        todo := todo - {other};
        if other != name && RecordedAt(plugins[other], path) {
          return Some(other);
        }
      }
      owner := None;
    }

    method Install(src: Path, name: string, root: Path, now: int, written: bool) returns (r: Result<InstalledPlugin, InstallError>)
      modifies this
      ensures files == AfterInstall(old(files), src, name, root, now, written)
      ensures r.Ok? ==> SourceError(old(files), src, name).None? && r.value == Entry(old(files), src, name, root, now)
      ensures r.Ok? <==>
        && written && SourceError(old(files), src, name).None? && ReadState(old(files), root).Some?
        && Placed(old(files), ReadState(old(files), root).value, src, name, root).Some?
      ensures r.Ok? ==> ReadState(files, root) == Some(ReadState(old(files), root).value[name := r.value])
      ensures r.Err? && r.error.PathTaken? ==> files == old(files)
      ensures Installs(old(files), files, src, name, root, now, written, r)
    {
      NameMatchesIff(name);
      ListsIff(files, root);
      if !ValidName(name) { return Err(InvalidName); }
      var at := Source(files, src);
      if at.Err? { return Err(SourceMissing); }
      if IsDirectory(files, at.value) { return Err(SourceIsDirectory); }
      if at.value !in files { return Err(SourceMissing); }
      if files[at.value].Symlink? { return Err(SourceIsSymlink); }
      var state := ReadState(files, root);
      if state.None? { return Err(BadState); }
      var dest, content := src, files[at.value].content;
      if !(root <= src) {
        dest := root + [src[|src| - 1]];
        var owner := FindTaken(state.value, name, dest);
        if owner.Some? { return Err(PathTaken(owner.value)); }
        if IsDirectory(files, dest) { return Err(CopyFailed); }
        files := files[dest := File(content)];
      }
      var entry := InstalledPlugin(Absolute(dest), content, now);
      if !written { return Err(StateNotWritten); }
      files := WriteState(files, root, state.value[name := entry]);
      return Ok(entry);
    }

    /** On every error before the state is written nothing changes; after it only the binary may be left. */
    method Remove(name: string, root: Path, home: Option<Path>, cwd: Path, written: bool) returns (r: Result<(), RemoveError>)
      modifies this
      ensures files == AfterRemove(old(files), name, root, home, cwd, written)
      ensures r.Err? && !r.error.BinaryLeft? ==> files == old(files)
      ensures r.Ok? || r.error.BinaryLeft? ==>
        var plugins := ReadState(old(files), root);
        && written && plugins.Some? && name in plugins.value && ValidateBinaryPath(plugins.value[name].binary, root, home).Ok?
        && (ReadState(files, root) == Some(plugins.value - {name}) || StatePath(root) !in files)
      ensures Removes(old(files), files, name, root, home, cwd, written, r)
    {
      NameMatchesIff(name);
      ListsIff(files, root);
      if !ValidName(name) { return Err(InvalidPluginName); }
      var state := ReadState(files, root);
      if state.None? { return Err(BadStateFile); }
      if name !in state.value { return Err(NotInstalled); }
      var binary := state.value[name].binary;
      var valid := ValidateBinaryPath(binary, root, home);
      AcceptsIff(binary, root, home);
      if valid.Err? { return Err(Escapes(valid.error)); }
      if !written { return Err(NotWritten); }
      files := WriteState(files, root, state.value - {name});
      var at := Target(files, cwd, binary);
      DeletionOutcome(files, cwd, binary);
      files := Deleted(files, cwd, binary);
      if at.Err? && !at.error.NoEntry? { return Err(BinaryLeft); }
      if at.Ok? && (at.value in files || HasChildren(files, at.value)) { return Err(BinaryLeft); }
      return Ok(());
    }
  }

  // ---- What every run keeps ---------------------------------------------------------------

  /** Where a record's binary lives. */
  function PathOf(entry: InstalledPlugin): Path {
    if entry.binary.Absolute? then Clean(entry.binary.segments) else []
  }

  /** A record of a clean path strictly under the root, reached over no link, to a file of its own with the recorded hash. */
  ghost predicate SoundEntry(files: Files, root: Path, name: string, entry: InstalledPlugin) {
    && ValidName(name) && entry.binary == Absolute(PathOf(entry))
    && var path := PathOf(entry);
      && root < path && path != StatePath(root) && LinkFree(files, path)
      && path in files && files[path] == File(entry.sha256) && !HasChildren(files, path)
  }

  /** No two records share a path. */
  ghost predicate Distinct(plugins: Plugins) {
    forall a, b | a in plugins && b in plugins && a != b && plugins[a].binary.Absolute? ::
      !RecordedAt(plugins[b], PathOf(plugins[a]))
  }

  /** The root is given by its real path: neither it nor a directory above it is a link. */
  ghost predicate RealRoot(files: Files, root: Path) {
    forall i | 0 < i <= |root| :: !IsLink(files, root[..i])
  }

  ghost predicate Sound(files: Files, root: Path) {
    var state := ReadState(files, root);
    && state.Some? && RealRoot(files, root)
    && (forall name | name in state.value :: SoundEntry(files, root, name, state.value[name]))
    && Distinct(state.value)
  }

  lemma SoundEntryVerifies(files: Files, root: Path, cwd: Path, name: string, entry: InstalledPlugin)
    requires SoundEntry(files, root, name, entry)
    ensures VerifyInstalled(files, cwd, entry)
    ensures Target(files, cwd, entry.binary) == Ok(PathOf(entry))
  {
    LinkFreeLeadsThere(files, PathOf(entry), true);
    LinkFreeLeadsThere(files, PathOf(entry), false);
  }

  /** Where an out-of-root install puts its binary: directly under the root, beside state.json. */
  lemma DestinationIsDirect(src: Path, root: Path)
    requires src != [] && !(root <= src)
    ensures root < Destination(src, root) && |Destination(src, root)| == |root| + 1
    ensures src[|src| - 1] != "state.json" ==> Destination(src, root) != StatePath(root)
    ensures Clean(Destination(src, root)) == Destination(src, root)
  {
    CleanFixesPaths(Destination(src, root));
    assert StatePath(root)[|root|] == "state.json" && Destination(src, root)[|root|] == src[|src| - 1];
  }

  /** Writing a file beside the records, or anything but a link outside the root, leaves a record sound. */
  lemma WriteKeepsEntry(files: Files, root: Path, name: string, entry: InstalledPlugin, path: Path, node: Node)
    requires SoundEntry(files, root, name, entry) && path != PathOf(entry)
    requires |path| == |root| + 1 || !(root <= path)
    requires node.Symlink? ==> !(path <= PathOf(entry))
    ensures SoundEntry(files[path := node], root, name, entry)
  {
    var own := PathOf(entry);
    forall i | 0 < i < |own| ensures !IsLink(files[path := node], own[..i]) {
      assert own[..i] <= own;
    }
  }

  /** Copying to a free destination and recording it: every other record stays sound. */
  lemma OthersStaySound(files: Files, root: Path, dest: Path, content: Content, plugins: Plugins, other: string, entry: InstalledPlugin)
    requires SoundEntry(files, root, other, entry) && !RecordedAt(entry, dest) && |dest| == |root| + 1
    ensures SoundEntry(WriteState(files[dest := File(content)], root, plugins), root, other, entry)
  {
    WriteKeepsEntry(files, root, other, entry, dest, File(content));
    WriteKeepsEntry(files[dest := File(content)], root, other, entry, StatePath(root),
                    File(StateJson(CURRENT_STATE_VERSION, plugins)));
  }

  lemma DirectIsLinkFree(files: Files, root: Path, dest: Path)
    requires RealRoot(files, root) && root < dest && |dest| == |root| + 1
    ensures LinkFree(files, dest)
  {
    forall i | 0 < i < |dest| ensures !IsLink(files, dest[..i]) {
      assert dest[..i] == root[..i];
    }
  }

  lemma RealRootStays(files: Files, root: Path, path: Path, node: Node)
    requires RealRoot(files, root) && (node.Symlink? ==> !(path <= root))
    ensures RealRoot(files[path := node], root)
  {
    forall i | 0 < i <= |root| ensures !IsLink(files[path := node], root[..i]) {
      assert root[..i] <= root;
    }
  }

  lemma NewEntryIsSound(files: Files, root: Path, dest: Path, content: Content, plugins: Plugins, name: string, now: int)
    requires ValidName(name) && root < dest && |dest| == |root| + 1 && dest != StatePath(root) && !HasChildren(files, dest)
    requires RealRoot(files, root)
    ensures SoundEntry(WriteState(files[dest := File(content)], root, plugins), root, name, InstalledPlugin(Absolute(dest), content, now))
  {
    CleanFixesPaths(dest);
    RealRootStays(files, root, dest, File(content));
    RealRootStays(files[dest := File(content)], root, StatePath(root), File(StateJson(CURRENT_STATE_VERSION, plugins)));
    DirectIsLinkFree(WriteState(files[dest := File(content)], root, plugins), root, dest);
  }

  /** The record of a successful out-of-root install and the file it points at. */
  lemma AfterOutsideInstall(files: Files, src: Path, name: string, root: Path, now: int)
    requires !(root <= src) && SourceError(files, src, name).None? && ReadState(files, root).Some?
    requires Placed(files, ReadState(files, root).value, src, name, root).Some?
    ensures var plugins := ReadState(files, root).value[name := Entry(files, src, name, root, now)];
      && !Taken(ReadState(files, root).value, name, Destination(src, root))
      && AfterInstall(files, src, name, root, now, true)
        == WriteState(files[Destination(src, root) := File(SourceContent(files, src, name))], root, plugins)
      && ReadState(AfterInstall(files, src, name, root, now, true), root) == Some(plugins)
  {
  }

  lemma DistinctAfter(plugins: Plugins, name: string, entry: InstalledPlugin)
    requires Distinct(plugins) && entry.binary.Absolute? && !Taken(plugins, name, PathOf(entry))
    ensures Distinct(plugins[name := entry])
  {
    var plugins' := plugins[name := entry];
    forall a, b | a in plugins' && b in plugins' && a != b && plugins'[a].binary.Absolute?
      ensures !RecordedAt(plugins'[b], PathOf(plugins'[a])) {
      if a != name && b == name {
        assert !RecordedAt(plugins[a], PathOf(entry));
      }
    }
  }

  /** An out-of-root install of anything but a "state.json" keeps every record sound. */
  lemma InstallKeepsSound(files: Files, src: Path, name: string, root: Path, now: int)
    requires Sound(files, root) && !(root <= src) && (src == [] || src[|src| - 1] != "state.json")
    ensures Sound(AfterInstall(files, src, name, root, now, true), root)
  {
    var after := AfterInstall(files, src, name, root, now, true);
    var plugins := ReadState(files, root).value;
    if SourceError(files, src, name).None? && Placed(files, plugins, src, name, root).Some? {
      var dest, content := Destination(src, root), SourceContent(files, src, name);
      var plugins' := plugins[name := Entry(files, src, name, root, now)];
      DestinationIsDirect(src, root);
      AfterOutsideInstall(files, src, name, root, now);
      NewEntryIsSound(files, root, dest, content, plugins', name, now);
      forall other | other in plugins && other != name ensures SoundEntry(after, root, other, plugins[other]) {
        OthersStaySound(files, root, dest, content, plugins', other, plugins[other]);
      }
      DistinctAfter(plugins, name, plugins'[name]);
      RealRootStays(files, root, dest, File(content));
      RealRootStays(files[dest := File(content)], root, StatePath(root), after[StatePath(root)]);
    }
  }

  lemma WriteAddsNoChildren(files: Files, root: Path, plugins: Plugins, path: Path)
    requires root < path && !HasChildren(files, path)
    ensures !HasChildren(WriteState(files, root, plugins), path)
  {
  }

  lemma StateWriteKeepsEntry(files: Files, root: Path, plugins: Plugins, name: string, entry: InstalledPlugin)
    requires SoundEntry(files, root, name, entry)
    ensures SoundEntry(WriteState(files, root, plugins), root, name, entry)
  {
    WriteKeepsEntry(files, root, name, entry, StatePath(root), File(StateJson(CURRENT_STATE_VERSION, plugins)));
  }

  lemma AfterRemoval(files: Files, root: Path, home: Option<Path>, cwd: Path, name: string)
    requires ReadState(files, root).Some? && name in ReadState(files, root).value
    requires SoundEntry(files, root, name, ReadState(files, root).value[name])
    ensures var plugins := ReadState(files, root).value;
      AfterRemove(files, name, root, home, cwd, true) == WriteState(files, root, plugins - {name}) - {PathOf(plugins[name])}
  {
    var plugins := ReadState(files, root).value;
    StateWriteKeepsEntry(files, root, plugins - {name}, name, plugins[name]);
    SoundEntryVerifies(WriteState(files, root, plugins - {name}), root, cwd, name, plugins[name]);
    CleanFixesPaths(PathOf(plugins[name]));
  }

  lemma RemovalKeepsEntry(files: Files, root: Path, path: Path, other: string, entry: InstalledPlugin)
    requires SoundEntry(files, root, other, entry) && path != PathOf(entry)
    ensures SoundEntry(files - {path}, root, other, entry)
  {
  }

  lemma OtherOutlivesRemoval(files: Files, root: Path, name: string, other: string)
    requires Sound(files, root) && ReadState(files, root).Some?
    requires var plugins := ReadState(files, root).value; name in plugins && other in plugins && other != name
    ensures var plugins := ReadState(files, root).value;
      SoundEntry(WriteState(files, root, plugins - {name}) - {PathOf(plugins[name])}, root, other, plugins[other])
  {
    var plugins := ReadState(files, root).value;
    assert SoundEntry(files, root, other, plugins[other]) && !RecordedAt(plugins[other], PathOf(plugins[name]));
    StateWriteKeepsEntry(files, root, plugins - {name}, other, plugins[other]);
    RemovalKeepsEntry(WriteState(files, root, plugins - {name}), root, PathOf(plugins[name]), other, plugins[other]);
  }

  lemma RemovalKeepsSound(files: Files, name: string, root: Path, after: Files)
    requires Sound(files, root) && name in ReadState(files, root).value
    requires var plugins := ReadState(files, root).value;
      after == WriteState(files, root, plugins - {name}) - {PathOf(plugins[name])}
    ensures Sound(after, root)
  {
    var plugins := ReadState(files, root).value;
    var left := plugins - {name};
    var between := WriteState(files, root, left);
    assert SoundEntry(files, root, name, plugins[name]);
    RealRootStays(files, root, StatePath(root), between[StatePath(root)]);
    assert ReadState(after, root) == Some(left);
    forall other | other in left ensures SoundEntry(after, root, other, left[other]) {
      OtherOutlivesRemoval(files, root, name, other);
    }
  }

  lemma RemoveKeepsSound(files: Files, name: string, root: Path, home: Option<Path>, cwd: Path, written: bool)
    requires Sound(files, root)
    ensures Sound(AfterRemove(files, name, root, home, cwd, written), root)
  {
    var plugins := ReadState(files, root).value;
    if AfterRemove(files, name, root, home, cwd, written) != files {
      assert SoundEntry(files, root, name, plugins[name]);
      AfterRemoval(files, root, home, cwd, name);
      RemovalKeepsSound(files, name, root, AfterRemove(files, name, root, home, cwd, written));
    }
  }

  // ---- Runs -------------------------------------------------------------------------------

  datatype Operation =
    | Install(src: Path, name: string, now: int)
    | Remove(name: string, cwd: Path)
    | Edit(path: Path, node: Option<Node>)

  /** Installs from outside the root, of anything but a "state.json", and edits outside the root that do not move it. */
  predicate Allowed(root: Path, op: Operation) {
    match op
    case Install(src, _, _) => !(root <= src) && (src == [] || src[|src| - 1] != "state.json")
    case Remove(_, _) => true
    case Edit(path, node) => !(root <= path) && (node.Some? && node.value.Symlink? ==> !(path <= root))
  }

  function Apply(files: Files, root: Path, home: Option<Path>, op: Operation): Files {
    match op
    case Install(src, name, now) => AfterInstall(files, src, name, root, now, true)
    case Remove(name, cwd) => AfterRemove(files, name, root, home, cwd, true)
    case Edit(path, Some(node)) => files[path := node]
    case Edit(path, None) => files - {path}
  }

  function Run(files: Files, root: Path, home: Option<Path>, ops: seq<Operation>): Files {
    if ops == [] then files else Apply(Run(files, root, home, ops[..|ops| - 1]), root, home, ops[|ops| - 1])
  }

  lemma OutsideIsNoPrefix(root: Path, path: Path, own: Path)
    requires root < own && !(root <= path) && path <= own
    ensures path <= root
  {
    assert |path| <= |root| ==> own[..|path|] == root[..|path|];
  }

  lemma EditKeepsEntry(files: Files, root: Path, path: Path, node: Option<Node>, name: string, entry: InstalledPlugin)
    requires SoundEntry(files, root, name, entry) && Allowed(root, Edit(path, node))
    ensures SoundEntry(if node.Some? then files[path := node.value] else files - {path}, root, name, entry)
  {
    if node.Some? {
      if path <= PathOf(entry) {
        OutsideIsNoPrefix(root, path, PathOf(entry));
      }
      WriteKeepsEntry(files, root, name, entry, path, node.value);
    } else {
      RemovalKeepsEntry(files, root, path, name, entry);
    }
  }

  lemma EditKeepsSound(files: Files, root: Path, path: Path, node: Option<Node>)
    requires Sound(files, root) && Allowed(root, Edit(path, node))
    ensures Sound(Apply(files, root, None, Edit(path, node)), root)
  {
    var plugins := ReadState(files, root).value;
    var after := if node.Some? then files[path := node.value] else files - {path};
    assert StatePath(root) != path && ReadState(after, root) == Some(plugins);
    if node.Some? {
      RealRootStays(files, root, path, node.value);
    }
    forall name | name in plugins ensures SoundEntry(after, root, name, plugins[name]) {
      EditKeepsEntry(files, root, path, node, name, plugins[name]);
    }
  }

  lemma {:induction false} RunKeepsSound(files: Files, root: Path, home: Option<Path>, ops: seq<Operation>)
    requires Sound(files, root) && forall op | op in ops :: Allowed(root, op)
    ensures Sound(Run(files, root, home, ops), root)
  {
    if ops != [] {
      var before, op := ops[..|ops| - 1], ops[|ops| - 1];
      RunKeepsSound(files, root, home, before);
      assert op in ops;
      match op
      case Install(src, name, now) => InstallKeepsSound(Run(files, root, home, before), src, name, root, now);
      case Remove(name, cwd) => RemoveKeepsSound(Run(files, root, home, before), name, root, home, cwd, true);
      case Edit(path, node) => EditKeepsSound(Run(files, root, home, before), root, path, node);
    }
  }

  /** The plugin can be removed, binary and record, and the others verify afterwards. */
  ghost predicate Removable(files: Files, root: Path, home: Option<Path>, cwd: Path, name: string)
    requires ReadState(files, root).Some? && name in ReadState(files, root).value
  {
    var plugins := ReadState(files, root).value;
    var after := AfterRemove(files, name, root, home, cwd, true);
    && ReadState(after, root) == Some(plugins - {name}) && PathOf(plugins[name]) !in after
    && forall other | other in plugins && other != name :: VerifyInstalled(after, cwd, plugins[other])
  }

  lemma SoundVerifies(files: Files, root: Path, cwd: Path, name: string)
    requires Sound(files, root) && name in ReadState(files, root).value
    ensures VerifyInstalled(files, cwd, ReadState(files, root).value[name])
  {
    SoundEntryVerifies(files, root, cwd, name, ReadState(files, root).value[name]);
  }

  lemma SoundIsRemovable(files: Files, root: Path, home: Option<Path>, cwd: Path, name: string)
    requires Sound(files, root) && name in ReadState(files, root).value
    ensures Removable(files, root, home, cwd, name)
  {
    var plugins := ReadState(files, root).value;
    var after := AfterRemove(files, name, root, home, cwd, true);
    RemoveKeepsSound(files, name, root, home, cwd, true);
    AfterRemovalState(files, root, home, cwd, name);
    forall other | other in plugins && other != name ensures VerifyInstalled(after, cwd, plugins[other]) {
      SoundVerifies(after, root, cwd, other);
    }
  }

  lemma AfterRemovalState(files: Files, root: Path, home: Option<Path>, cwd: Path, name: string)
    requires ReadState(files, root).Some? && name in ReadState(files, root).value
    requires SoundEntry(files, root, name, ReadState(files, root).value[name])
    ensures var plugins := ReadState(files, root).value;
      var after := AfterRemove(files, name, root, home, cwd, true);
      ReadState(after, root) == Some(plugins - {name}) && PathOf(plugins[name]) !in after
  {
    AfterRemoval(files, root, home, cwd, name);
  }

  /**
   From a host without a state file, after any run: the recorded paths are distinct, every plugin
   verifies, and every plugin can be removed without disturbing another.
   */
  lemma InstalledPluginsStayUsable(files: Files, root: Path, home: Option<Path>, cwd: Path, ops: seq<Operation>)
    requires StatePath(root) !in files && RealRoot(files, root) && forall op | op in ops :: Allowed(root, op)
    ensures var now := Run(files, root, home, ops);
      var plugins := ReadState(now, root);
      && plugins.Some? && Distinct(plugins.value)
      && forall name | name in plugins.value ::
        VerifyInstalled(now, cwd, plugins.value[name]) && Removable(now, root, home, cwd, name)
  {
    RunKeepsSound(files, root, home, ops);
    var now := Run(files, root, home, ops);
    var plugins := ReadState(now, root).value;
    forall name | name in plugins ensures VerifyInstalled(now, cwd, plugins[name]) && Removable(now, root, home, cwd, name) {
      SoundEntryVerifies(now, root, cwd, name, plugins[name]);
      SoundIsRemovable(now, root, home, cwd, name);
    }
  }

  // ---- Where the conditions come from -----------------------------------------------------

  lemma InPlaceEntryIsSound(files: Files, src: Path, name: string, root: Path, now: int, plugins: Plugins)
    requires RealRoot(files, root) && root < src && src != StatePath(root) && SourceError(files, src, name).None? && LinkFree(files, src)
    ensures SoundEntry(WriteState(files, root, plugins), root, name, Entry(files, src, name, root, now))
  {
    CleanFixesPaths(src);
    LinkFreeSource(files, src, name);
    WriteAddsNoChildren(files, root, plugins, src);
    forall i | 0 < i < |src| ensures !IsLink(WriteState(files, root, plugins), src[..i]) {
      assert !IsLink(files, src[..i]);
    }
  }

  lemma InRootInstallKeepsSound(files: Files, src: Path, name: string, root: Path, now: int)
    requires Sound(files, root) && root < src && src != StatePath(root) && SourceError(files, src, name).None?
    requires !Taken(ReadState(files, root).value, name, src) && LinkFree(files, src)
    ensures Sound(AfterInstall(files, src, name, root, now, true), root)
  {
    var plugins, entry := ReadState(files, root).value, Entry(files, src, name, root, now);
    var plugins' := plugins[name := entry];
    var after := WriteState(files, root, plugins');
    assert AfterInstall(files, src, name, root, now, true) == after;
    CleanFixesPaths(src);
    DistinctAfter(plugins, name, entry);
    RealRootStays(files, root, StatePath(root), after[StatePath(root)]);
    InPlaceEntryIsSound(files, src, name, root, now, plugins');
    forall other | other in plugins' ensures SoundEntry(after, root, other, plugins'[other]) {
      if other != name {
        StateWriteKeepsEntry(files, root, plugins', other, plugins[other]);
      }
    }
  }

  lemma LinkFreeSource(files: Files, src: Path, name: string)
    requires SourceError(files, src, name).None? && LinkFree(files, src)
    ensures Source(files, src) == Ok(src)
  {
    forall i | 0 < i < |src| ensures !IsLink(files, [] + src[..i]) {
      assert [] + src[..i] == src[..i];
    }
    WalkWithoutLinks(files, [], src, MAX_LINKS);
    assert [] + src == src;
  }

  /** With no link on the way, walking a clean path leads to it or nowhere. */
  lemma {:induction false} WalkWithoutLinks(files: Files, at: Path, rest: Path, links: nat)
    requires forall i | 0 < i < |rest| :: !IsLink(files, at + rest[..i])
    ensures var r := Walk(files, at, rest, false, links); r.Ok? ==> r.value == at + rest
    decreases |rest|
  {
    if rest != [] {
      var next: Path := at + [rest[0]];
      assert rest[..1] == [rest[0]] && Plain(rest[0]);
      forall i | 0 < i < |rest[1..]| ensures !IsLink(files, next + rest[1..][..i]) {
        assert next + rest[1..][..i] == at + rest[..i + 1];
      }
      WalkWithoutLinks(files, next, rest[1..], links);
      assert next + rest[1..] == at + rest;
    } else {
      assert at + rest == at;
    }
  }

  lemma SharedPathIsNotDistinct(plugins: Plugins, name: string, entry: InstalledPlugin, path: Path)
    requires Taken(plugins, name, path) && entry.binary == Absolute(path)
    ensures !Distinct(plugins[name := entry])
  {
    var other :| other in plugins && other != name && RecordedAt(plugins[other], path);
    CleanFixesPaths(path);
    assert RecordedAt(plugins[name := entry][other], PathOf(plugins[name := entry][name]));
  }

  /** An in-root install keeps the records sound exactly when no other plugin owns the path and no link leads to it: it checks neither. */
  lemma InRootInstallKeepsSoundIff(files: Files, src: Path, name: string, root: Path, now: int)
    requires Sound(files, root) && root < src && src != StatePath(root) && SourceError(files, src, name).None?
    ensures Sound(AfterInstall(files, src, name, root, now, true), root)
      <==> !Taken(ReadState(files, root).value, name, src) && LinkFree(files, src)
  {
    var plugins := ReadState(files, root).value;
    var after := AfterInstall(files, src, name, root, now, true);
    var plugins' := plugins[name := Entry(files, src, name, root, now)];
    assert after == WriteState(files, root, plugins') && ReadState(after, root) == Some(plugins');
    CleanFixesPaths(src);
    if Taken(plugins, name, src) {
      SharedPathIsNotDistinct(plugins, name, plugins'[name], src);
    } else if LinkFree(files, src) {
      InRootInstallKeepsSound(files, src, name, root, now);
    } else {
      var i :| 0 < i < |src| && IsLink(files, src[..i]);
      assert src[..i] != StatePath(root);
      assert IsLink(after, PathOf(plugins'[name])[..i]);
    }
  }

  lemma ReplacedBinaryKeepsOthers(files: Files, root: Path, dest: Path, content: Content)
    requires Sound(files, root) && |dest| == |root| + 1 && dest != StatePath(root)
    ensures var plugins := ReadState(files, root).value;
      var after := files[dest := File(content)];
      && ReadState(after, root) == Some(plugins) && RealRoot(after, root)
      && forall other | other in plugins && !RecordedAt(plugins[other], dest) :: SoundEntry(after, root, other, plugins[other])
  {
    var plugins := ReadState(files, root).value;
    RealRootStays(files, root, dest, File(content));
    forall other | other in plugins && !RecordedAt(plugins[other], dest)
      ensures SoundEntry(files[dest := File(content)], root, other, plugins[other])
    {
      WriteKeepsEntry(files, root, other, plugins[other], dest, File(content));
    }
  }

  lemma ReplacedBinaryIsSoundIff(files: Files, root: Path, dest: Path, content: Content, name: string, entry: InstalledPlugin)
    requires SoundEntry(files, root, name, entry) && RecordedAt(entry, dest)
    ensures SoundEntry(files[dest := File(content)], root, name, entry) <==> entry.sha256 == content
  {
    forall i | 0 < i < |dest| ensures !IsLink(files[dest := File(content)], dest[..i]) {
      assert |dest[..i]| != |dest|;
    }
  }

  /**
   When the state write fails after the copy, the binary is already replaced: the records stay sound
   exactly when this was not a reinstall with a changed binary.
   */
  lemma FailedInstallKeepsSoundIff(files: Files, src: Path, name: string, root: Path, now: int)
    requires Sound(files, root) && !(root <= src) && SourceError(files, src, name).None? && src[|src| - 1] != "state.json"
    requires Placed(files, ReadState(files, root).value, src, name, root).Some?
    ensures var plugins := ReadState(files, root).value;
      Sound(AfterInstall(files, src, name, root, now, false), root) <==>
        !(name in plugins && RecordedAt(plugins[name], Destination(src, root)) && plugins[name].sha256 != SourceContent(files, src, name))
  {
    var plugins := ReadState(files, root).value;
    var dest, content := Destination(src, root), SourceContent(files, src, name);
    DestinationIsDirect(src, root);
    assert AfterInstall(files, src, name, root, now, false) == files[dest := File(content)];
    ReplacedBinaryKeepsOthers(files, root, dest, content);
    if name in plugins && RecordedAt(plugins[name], dest) {
      ReplacedBinaryIsSoundIff(files, root, dest, content, name, plugins[name]);
    }
  }

  /** A state cannot record its own hash. */
  lemma NoStateHoldsItself(version: int, plugins: Plugins, name: string)
    requires name in plugins
    ensures plugins[name].sha256 != StateJson(version, plugins)
  {
  }

  /** A binary called state.json, copied in or in place, is overwritten by the record of its installation, and never verifies. */
  lemma StateJsonNeverVerifies(files: Files, src: Path, name: string, root: Path, cwd: Path, now: int)
    requires Sound(files, root) && SourceError(files, src, name).None?
    requires Destination(src, root) == StatePath(root) && Placed(files, ReadState(files, root).value, src, name, root).Some?
    ensures !VerifyInstalled(AfterInstall(files, src, name, root, now, true), cwd, Entry(files, src, name, root, now))
  {
    var plugins' := ReadState(files, root).value[name := Entry(files, src, name, root, now)];
    var after := AfterInstall(files, src, name, root, now, true);
    assert after[StatePath(root)] == File(StateJson(CURRENT_STATE_VERSION, plugins'));
    RealRootStays(files, root, StatePath(root), after[StatePath(root)]);
    assert RealRoot(after, root);
    DirectIsLinkFree(after, root, StatePath(root));
    LinkFreeLeadsThere(after, StatePath(root), true);
    NoStateHoldsItself(CURRENT_STATE_VERSION, plugins', name);
  }
}
