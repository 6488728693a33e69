/**
 Where a removal reaches. The path check of a record is textual; the system walks the path as spelled,
 through links and dots. Shown here: for which records the two agree in every file tree.
 */
module Removals {
  import opened Prelude
  import opened PluginInstall

  // ---- Cleaning and moving ----------------------------------------------------------------

  lemma {:induction false} CleanOfClean(a: seq<string>, b: seq<string>)
    ensures Clean(Clean(a) + b) == Clean(a + b)
  {
    if b == [] {
      CleanFixesPaths(Clean(a));
      assert Clean(a) + [] == Clean(a) && a + [] == a;
    } else {
      var before, last := b[..|b| - 1], b[|b| - 1];
      assert b == before + [last];
      CleanOfClean(a, before);
      assert Clean(a) + b == (Clean(a) + before) + [last] && a + b == (a + before) + [last];
      CleanAppend(Clean(a) + before, last);
      CleanAppend(a + before, last);
    }
  }

  lemma CleanStep(at: Path, segment: string, rest: seq<string>)
    ensures Clean(at + ([segment] + rest)) == Clean(Clean(at + [segment]) + rest)
  {
    CleanOfClean(at + [segment], rest);
    assert (at + [segment]) + rest == at + ([segment] + rest);
  }

  /** After its first step, what is left of a walk is at the same places. */
  lemma PlacesShift(at: Path, segments: seq<string>, j: nat)
    requires segments != [] && j < |segments|
    ensures Clean(Clean(at + [segments[0]]) + segments[1..][..j]) == Clean(at + segments[..j + 1])
  {
    CleanStep(at, segments[0], segments[1..][..j]);
    assert segments[..j + 1] == [segments[0]] + segments[1..][..j];
  }

  lemma {:induction false} CleanOfTrimmed(segments: seq<string>)
    ensures Clean(Trimmed(segments)) == Clean(segments) && |Trimmed(segments)| <= |segments|
    ensures Trimmed(segments) == segments[..|Trimmed(segments)|]
  {
    if segments != [] && segments[|segments| - 1] == "" {
      CleanOfTrimmed(segments[..|segments| - 1]);
    }
  }

  function Moved(so: (nat, seq<string>), last: string): (nat, seq<string>) {
    if last == "" || last == "." then so
    else if last != ".." then (so.0, so.1 + [last])
    else if so.1 == [] then (so.0 + 1, []) else (so.0, so.1[..|so.1| - 1])
  }

  /** How segments move a walk: so many directories up, then down these names. */
  function Move(segments: seq<string>): (nat, seq<string>) {
    if segments == [] then (0, []) else Moved(Move(segments[..|segments| - 1]), segments[|segments| - 1])
  }

  lemma {:induction false} MoveIsBounded(segments: seq<string>, j: nat)
    requires j <= |segments|
    ensures Move(segments[..j]).0 <= Move(segments).0 <= |segments|
    ensures forall name | name in Move(segments).1 :: name in segments
  {
    assert segments[..|segments|] == segments;
    if segments != [] {
      var before := segments[..|segments| - 1];
      assert segments == before + [segments[|segments| - 1]];
      MoveIsBounded(before, if j < |segments| then j else |before|);
      assert j < |segments| ==> before[..j] == segments[..j];
    }
  }

  /** The place so many directories up from at, and then down. */
  function Reached(at: seq<string>, so: (nat, seq<string>)): seq<string>
    requires so.0 <= |at|
  {
    at[..|at| - so.0] + so.1
  }

  /** One step of cleaning, seen from the directory at. */
  lemma StepMoves(at: seq<string>, so: (nat, seq<string>), last: string)
    requires Moved(so, last).0 <= |at|
    ensures var p := Reached(at, so);
      Reached(at, Moved(so, last))
        == if last == "" || last == "." then p else if last != ".." then p + [last] else if p == [] then [] else p[..|p| - 1]
  {
  }

  lemma {:induction false} CleanMoves(at: Path, segments: seq<string>)
    requires Move(segments).0 <= |at|
    ensures Clean(at + segments) == Reached(at, Move(segments))
  {
    if segments == [] {
      CleanFixesPaths(at);
      assert at + segments == at;
    } else {
      var before, last := segments[..|segments| - 1], segments[|segments| - 1];
      CleanMoves(at, before);
      StepMoves(at, Move(before), last);
      assert at + segments == (at + before) + [last];
      CleanAppend(at + before, last);
    }
  }

  /** A walk that never stood at p never ends below p. */
  lemma {:induction false} NeverBelow(segments: seq<string>, p: Path)
    requires forall j | 0 <= j <= |segments| :: Clean(segments[..j]) != p
    ensures !(p <= Clean(segments))
  {
    assert segments[..|segments|] == segments;
    if segments == [] {
      assert Clean(segments[..0]) == [];
    } else {
      var before := segments[..|segments| - 1];
      forall j | 0 <= j <= |before| ensures Clean(before[..j]) != p {
        assert before[..j] == segments[..j];
      }
      NeverBelow(before, p);
    }
  }

  // ---- Staying inside ---------------------------------------------------------------------

  /** Everything not strictly under the root is as it was. */
  ghost predicate OutsideKept(files: Files, files': Files, root: Path) {
    forall path | path in files && !(root < path) :: path in files' && files'[path] == files[path]
  }

  /** No link on the way that segments take from a directory, as far as there are directories. */
  ghost predicate FreeWay(files: Files, at: Path, segments: seq<string>) {
    forall i | 0 < i < |segments| && (forall j | 0 < j < i :: IsDirectory(files, Clean(at + segments[..j]))) ::
      !IsLink(files, Clean(at + segments[..i]))
  }

  lemma FreeWayOn(files: Files, at: Path, segments: seq<string>)
    requires |segments| > 1 && FreeWay(files, at, segments) && IsDirectory(files, Clean(at + [segments[0]]))
    ensures FreeWay(files, Clean(at + [segments[0]]), segments[1..])
  {
    var next, rest := Clean(at + [segments[0]]), segments[1..];
    forall i | 0 < i < |rest| && (forall j | 0 < j < i :: IsDirectory(files, Clean(next + rest[..j])))
      ensures !IsLink(files, Clean(next + rest[..i]))
    {
      forall j | 0 < j < i + 1 ensures IsDirectory(files, Clean(at + segments[..j])) {
        PlacesShift(at, segments, j - 1);
        if j == 1 {
          assert segments[..1] == [segments[0]];
        } else {
          assert IsDirectory(files, Clean(next + rest[..j - 1]));
        }
      }
      PlacesShift(at, segments, i);
    }
  }

  lemma WalkStep(files: Files, at: Path, segments: seq<string>, links: nat)
    requires segments != []
    ensures var next := Clean(at + [segments[0]]);
      && (|segments| == 1 ==> Walk(files, at, segments, false, links) == Ok(next))
      && (|segments| > 1 && !IsLink(files, next) ==>
            Walk(files, at, segments, false, links)
              == if !Plain(segments[0]) || IsDirectory(files, next) then Walk(files, next, segments[1..], false, links)
                 else if next in files then Err(NotDirectory) else Err(NoEntry))
  {
    CleanFixesPaths(at);
    CleanAppend(at, segments[0]);
    if |segments| == 1 {
      assert segments[1..] == [];
    }
  }

  lemma UpIsDirectory(files: Files, at: Path, segment: string)
    requires IsDirectory(files, at) && !Plain(segment)
    ensures IsDirectory(files, Clean(at + [segment]))
  {
    CleanFixesPaths(at);
    CleanAppend(at, segment);
    var up := Clean(at + [segment]);
    if up != at && up != [] {
      assert up < at;
      if at !in files {
        var p :| p in files && at < p;
        assert up < p;
      }
    }
  }

  /** On such a way, walking a path as spelled leads where cleaning it says, or nowhere. */
  lemma {:induction false} WalkIsClean(files: Files, at: Path, segments: seq<string>, links: nat)
    requires IsDirectory(files, at) && FreeWay(files, at, segments)
    ensures var r := Walk(files, at, segments, false, links); r.Ok? ==> r.value == Clean(at + segments)
    decreases |segments|
  {
    if segments == [] {
      CleanFixesPaths(at);
      assert at + segments == at;
    } else {
      var first, rest := segments[0], segments[1..];
      var next := Clean(at + [first]);
      WalkStep(files, at, segments, links);
      assert segments == [first] + rest && segments[..1] == [first];
      if rest != [] {
        if !Plain(first) {
          UpIsDirectory(files, at, first);
        }
        if IsDirectory(files, next) {
          FreeWayOn(files, at, segments);
          WalkIsClean(files, next, rest, links);
          CleanStep(at, first, rest);
        }
      }
    }
  }

  predicate Ends(segments: seq<string>) {
    segments != [] && Plain(segments[|segments| - 1])
  }

  /** No link on the way of an absolute path as spelled; or a path that ends in a dot entry, which nothing is deleted by. */
  ghost predicate PlainWay(files: Files, binary: RawPath) {
    !Ends(Trimmed(Spelled(binary))) || (binary.Absolute? && FreeWay(files, [], Trimmed(binary.segments)))
  }

  lemma TargetIsWalked(files: Files, cwd: Path, binary: RawPath)
    requires binary.Absolute? && Target(files, cwd, binary).Ok?
    ensures Walk(files, [], Trimmed(binary.segments), false, MAX_LINKS) == Target(files, cwd, binary)
  {
  }

  lemma FreeWayLeadsThere(files: Files, segments: seq<string>)
    requires FreeWay(files, [], Trimmed(segments))
    ensures var r := Walk(files, [], Trimmed(segments), false, MAX_LINKS); r.Ok? ==> r.value == Clean(segments)
  {
    WalkIsClean(files, [], Trimmed(segments), MAX_LINKS);
    CleanOfTrimmed(segments);
    assert [] + Trimmed(segments) == Trimmed(segments);
  }

  lemma PlainWayAims(files: Files, root: Path, home: Option<Path>, cwd: Path, binary: RawPath)
    requires ValidateBinaryPath(binary, root, home).Ok? && PlainWay(files, binary)
    ensures Target(files, cwd, binary).Ok? ==> root < Target(files, cwd, binary).value
  {
    if Target(files, cwd, binary).Ok? {
      TargetIsWalked(files, cwd, binary);
      FreeWayLeadsThere(files, binary.segments);
    }
  }

  /** Writing the state changes no kind of file. */
  lemma WriteKeepsWay(files: Files, root: Path, plugins: Plugins, binary: RawPath)
    requires StatePath(root) in files && files[StatePath(root)].File? && PlainWay(files, binary)
    ensures PlainWay(WriteState(files, root, plugins), binary)
  {
    var after := WriteState(files, root, plugins);
    forall p: Path ensures (IsLink(after, p) <==> IsLink(files, p)) && (IsDirectory(after, p) <==> IsDirectory(files, p)) {
      if q :| q in files && p < q { assert q in after; }
      if q :| q in after && p < q { assert q in files; }
    }
  }

  /** Whatever record it passes, Remove deletes nothing outside the root if the record is absolute and no link is on its way. */
  lemma RemoveStaysUnderRoot(files: Files, name: string, root: Path, home: Option<Path>, cwd: Path, written: bool)
    requires var state := ReadState(files, root);
      state.Some? && name in state.value ==> PlainWay(files, state.value[name].binary)
    ensures OutsideKept(files, AfterRemove(files, name, root, home, cwd, written), root)
  {
    var state := ReadState(files, root);
    if AfterRemove(files, name, root, home, cwd, written) != files {
      var binary := state.value[name].binary;
      WriteKeepsWay(files, root, state.value - {name}, binary);
      PlainWayAims(WriteState(files, root, state.value - {name}), root, home, cwd, binary);
    }
  }

  // ---- A tree in which a walk arrives -----------------------------------------------------

  lemma {:induction false} WalkFollows(files: Files, at: Path, segments: seq<string>, k: nat, links: nat)
    requires k < |segments|
    requires forall j | 0 < j <= k :: !IsLink(files, Clean(at + segments[..j])) && IsDirectory(files, Clean(at + segments[..j]))
    ensures Walk(files, at, segments, false, links) == Walk(files, Clean(at + segments[..k]), segments[k..], false, links)
    decreases k
  {
    if k == 0 {
      CleanFixesPaths(at);
      assert at + segments[..0] == at && segments[0..] == segments;
    } else {
      var next, rest := Clean(at + [segments[0]]), segments[1..];
      CleanFixesPaths(at);
      CleanAppend(at, segments[0]);
      assert segments[..1] == [segments[0]];
      forall j | 0 < j <= k - 1 ensures !IsLink(files, Clean(next + rest[..j])) && IsDirectory(files, Clean(next + rest[..j])) {
        PlacesShift(at, segments, j);
      }
      WalkFollows(files, next, rest, k - 1, links);
      PlacesShift(at, segments, k - 1);
      assert rest[k - 1..] == segments[k..];
    }
  }

  lemma WalkArrives(files: Files, at: Path, segments: seq<string>, links: nat)
    requires Ends(segments)
    requires forall j | 0 < j < |segments| :: !IsLink(files, Clean(at + segments[..j])) && IsDirectory(files, Clean(at + segments[..j]))
    ensures Walk(files, at, segments, false, links) == Ok(Clean(at + segments))
  {
    var k := |segments| - 1;
    WalkFollows(files, at, segments, k, links);
    assert segments[k..] == [segments[k]] && at + segments == (at + segments[..k]) + [segments[k]];
    CleanAppend(at + segments[..k], segments[k]);
  }

  function Joined(names: seq<string>): string {
    if names == [] then "" else Joined(names[..|names| - 1]) + names[|names| - 1]
  }

  lemma {:induction false} JoinedIsLong(names: seq<string>)
    ensures forall name | name in names :: |name| <= |Joined(names)|
  {
    if names != [] {
      JoinedIsLong(names[..|names| - 1]);
    }
  }

  /** A name unlike all of these. */
  function Unused(names: seq<string>): (r: string)
    ensures r !in names && Plain(r)
  {
    JoinedIsLong(names);
    var r := "xxx" + Joined(names);
    assert |r| >= 3;
    r
  }

  /** k directories deep, all of one name. */
  function Deep(name: string, k: nat): (r: Path)
    requires Plain(name)
  {
    seq(k, _ => name)
  }

  function Places(at: Path, segments: seq<string>): set<Path> {
    set j | 0 <= j <= |segments| :: Clean(at + segments[..j])
  }

  /** The directories segments visit from at, the place they end at included. */
  function Trail(at: Path, segments: seq<string>): Files {
    map p: Path | p in Places(at, segments) :: Directory
  }

  /** From deep enough down, segments move as they say. */
  lemma MovesDeep(name: string, segments: seq<string>, j: nat)
    requires Plain(name) && j <= |segments|
    ensures var at := Deep(name, |segments| + 1);
      && Move(segments[..j]).0 <= Move(segments).0 < |at|
      && Clean(at + segments[..j]) == Reached(at, Move(segments[..j]))
  {
    MoveIsBounded(segments, j);
    CleanMoves(Deep(name, |segments| + 1), segments[..j]);
  }

  /** Below directories named like nothing else, they stay there. */
  lemma StaysDeep(name: string, segments: seq<string>, j: nat)
    requires Plain(name) && j <= |segments|
    ensures var p := Clean(Deep(name, |segments| + 1) + segments[..j]); p != [] && p[0] == name
  {
    MovesDeep(name, segments, j);
  }

  /** The walk goes below the place it ends at, and comes back up to it. */
  ghost predicate DoublesBack(segments: seq<string>) {
    exists j | 0 <= j < |segments| :: Move(segments[..j]).0 == Move(segments).0 && Move(segments).1 < Move(segments[..j]).1
  }

  /** Only then is something it visits there below its end. */
  lemma EndsEmpty(name: string, segments: seq<string>, j: nat)
    requires Plain(name) && name !in segments && Ends(segments) && j < |segments|
    ensures var at := Deep(name, |segments| + 1);
      Clean(at + segments) < Clean(at + segments[..j]) ==> DoublesBack(segments)
  {
    var at := Deep(name, |segments| + 1);
    assert segments[..|segments|] == segments;
    MovesDeep(name, segments, j);
    MovesDeep(name, segments, |segments|);
    EndsInName(segments);
    BelowInDeep(at, name, Move(segments), Move(segments[..j]));
  }

  lemma EndsInName(segments: seq<string>)
    requires Ends(segments)
    ensures Move(segments).1 != [] && Move(segments).1[0] in segments
  {
    MoveIsBounded(segments, |segments|);
  }

  lemma BelowInDeep(at: seq<string>, name: string, there: (nat, seq<string>), here: (nat, seq<string>))
    requires here.0 <= there.0 <= |at| && there.1 != [] && there.1[0] != name && forall i | 0 <= i < |at| :: at[i] == name
    ensures Reached(at, there) < Reached(at, here) ==> here.0 == there.0 && there.1 < here.1
  {
    var a, b, k := Reached(at, there), Reached(at, here), |at| - there.0;
    assert a[k] == there.1[0];
    if here.0 < there.0 {
      assert b[k] == at[k];
    } else if a < b {
      assert there.1 == a[k..] && here.1 == b[k..];
    }
  }

  // ---- Which records stay inside ----------------------------------------------------------

  /** Only directories have anything below them. */
  ghost predicate WellFormed(files: Files) {
    forall p, q | p in files && q in files && p < q :: files[p].Directory?
  }

  /** The state records binary under name in a tree with links nowhere but at the given paths, and none on the way to the root. */
  ghost predicate Records(files: Files, root: Path, links: set<Path>, name: string, binary: RawPath) {
    && ValidName(name) && ReadState(files, root).Some? && name in ReadState(files, root).value
    && ReadState(files, root).value[name].binary == binary
    && WellFormed(files) && RealRoot(files, root)
    && forall path | path in files && files[path].Symlink? :: path in links
  }

  /** A link may stand at q: not at or above the root, nor at or below state.json. */
  predicate MayBeLink(root: Path, q: Path) {
    !(q <= root) && !(StatePath(root) <= q)
  }

  /** The first i segments lead to a place that may be a link, past no state.json, and are not all. */
  ghost predicate Hits(root: Path, links: set<Path>, segments: seq<string>, i: nat) {
    && 0 < i < |segments| && Clean(segments[..i]) in links && MayBeLink(root, Clean(segments[..i]))
    && forall j | 0 < j < i :: Clean(segments[..j]) != StatePath(root)
  }

  /** The record is absolute with none of the links on its way, or ends in a dot entry. */
  ghost predicate Confined(root: Path, binary: RawPath, links: set<Path>) {
    var segments := Trimmed(Spelled(binary));
    !Ends(segments) || (binary.Absolute? && forall i :: !Hits(root, links, segments, i))
  }

  function WithState(files: Files, root: Path, plugins: Plugins): Files {
    files[StatePath(root) := File(StateJson(CURRENT_STATE_VERSION, plugins))]
  }

  lemma ConfinedHasPlainWay(files: Files, root: Path, links: set<Path>, name: string, binary: RawPath)
    requires Records(files, root, links, name, binary) && Confined(root, binary, links)
    ensures PlainWay(files, binary)
  {
    if Ends(Trimmed(Spelled(binary))) {
      var segments := Trimmed(binary.segments);
      forall i | 0 < i < |segments| && (forall j | 0 < j < i :: IsDirectory(files, Clean([] + segments[..j])))
        ensures !IsLink(files, Clean([] + segments[..i]))
      {
        assert [] + segments[..i] == segments[..i];
        forall j | 0 < j < i ensures Clean(segments[..j]) != StatePath(root) {
          assert [] + segments[..j] == segments[..j];
          StateIsNoDirectory(files, root, links, name, binary);
        }
        if IsLink(files, Clean(segments[..i])) {
          if !MayBeLink(root, Clean(segments[..i])) {
            NoLinkThere(files, root, links, name, binary, Clean(segments[..i]));
          }
          assert Hits(root, links, segments, i);
        }
      }
    }
  }

  lemma StateIsNoDirectory(files: Files, root: Path, links: set<Path>, name: string, binary: RawPath)
    requires Records(files, root, links, name, binary)
    ensures StatePath(root) in files && files[StatePath(root)].File? && !IsDirectory(files, StatePath(root))
  {
  }

  lemma NoLinkThere(files: Files, root: Path, links: set<Path>, name: string, binary: RawPath, q: Path)
    requires Records(files, root, links, name, binary) && q in files && !MayBeLink(root, q)
    ensures !IsLink(files, q)
  {
    StateIsNoDirectory(files, root, links, name, binary);
    if q <= root {
      assert root[..|q|] == q && q < StatePath(root);
    } else {
      assert q == StatePath(root) || StatePath(root) < q;
    }
  }

  // ---- The other records ------------------------------------------------------------------

  /** The walk comes to q for the first time, by its name, having passed no state.json. */
  ghost predicate ComesTo(root: Path, segments: seq<string>, i: nat) {
    && Ends(segments) && 0 < i < |segments| && Plain(segments[i - 1]) && root != [] && MayBeLink(root, Clean(segments[..i]))
    && (forall j | 0 < j < i :: Clean(segments[..j]) != StatePath(root))
    && (forall j | 0 <= j < i :: Clean(segments[..j]) != Clean(segments[..i]))
  }

  lemma FirstHit(root: Path, links: set<Path>, segments: seq<string>, i: nat)
    requires root != [] && Ends(segments) && Hits(root, links, segments, i)
    requires forall j | 0 < j < i :: !Hits(root, links, segments, j)
    ensures ComesTo(root, segments, i)
  {
    var q := Clean(segments[..i]);
    forall j | 0 <= j < i ensures Clean(segments[..j]) != q {
      assert 0 < j ==> !Hits(root, links, segments, j);
    }
    assert segments[..i] == segments[..i - 1] + [segments[i - 1]];
    CleanAppend(segments[..i - 1], segments[i - 1]);
    var earlier := segments[..i - 1];
    forall j | 0 <= j <= |earlier| ensures Clean(earlier[..j]) != q {
      assert earlier[..j] == segments[..j];
    }
    NeverBelow(earlier, q);
  }

  lemma BeforeIt(root: Path, segments: seq<string>, i: nat, p: Path)
    requires ComesTo(root, segments, i) && p in Trail([], segments[..i - 1])
    ensures !(Clean(segments[..i]) <= p) && !(StatePath(root) <= p)
  {
    var before := segments[..i - 1];
    var j :| 0 <= j <= |before| && p == Clean([] + before[..j]);
    assert [] + before[..j] == segments[..j];
    forall k | 0 <= k <= j
      ensures Clean(segments[..j][..k]) != Clean(segments[..i]) && Clean(segments[..j][..k]) != StatePath(root)
    {
      assert segments[..j][..k] == segments[..k];
    }
    NeverBelow(segments[..j], Clean(segments[..i]));
    NeverBelow(segments[..j], StatePath(root));
  }

  function Strange(root: Path, segments: seq<string>, i: nat): (name: string)
    requires i <= |segments|
    ensures Plain(name) && name !in root && name !in segments && name !in Clean(segments[..i])
  {
    Unused(root + segments + Clean(segments[..i]))
  }

  /** Where the link leads: so far down that the rest of the way cannot come back. */
  function Far(root: Path, segments: seq<string>, i: nat): Path
    requires i <= |segments|
  {
    Deep(Strange(root, segments, i), |segments[i..]| + 1)
  }

  lemma InFar(root: Path, segments: seq<string>, i: nat, p: Path)
    requires i <= |segments| && p in Trail(Far(root, segments, i), segments[i..])
    ensures p != [] && p[0] == Strange(root, segments, i)
  {
    var tail := segments[i..];
    var j :| 0 <= j <= |tail| && p == Clean(Far(root, segments, i) + tail[..j]);
    StaysDeep(Strange(root, segments, i), tail, j);
  }

  /** A tree whose one link, at the i-th place of the way, leads there. */
  function Linked(root: Path, segments: seq<string>, i: nat, plugins: Plugins): Files
    requires 0 < i <= |segments|
  {
    WithState((Trail([], segments[..i - 1]) + Trail(Far(root, segments, i), segments[i..]))
                [Clean(segments[..i]) := Symlink(Far(root, segments, i))], root, plugins)
  }

  lemma NothingBelow(root: Path, segments: seq<string>, i: nat, plugins: Plugins, p: Path, p': Path)
    requires ComesTo(root, segments, i) && (p == Clean(segments[..i]) || p == StatePath(root))
    requires p' in Linked(root, segments, i, plugins)
    ensures !(p < p')
  {
    var q := Clean(segments[..i]);
    assert q != [] && StatePath(root)[0] == root[0] && (q < StatePath(root) ==> q <= root);
    if p' in Trail([], segments[..i - 1]) {
      BeforeIt(root, segments, i, p');
    } else if p' in Trail(Far(root, segments, i), segments[i..]) {
      InFar(root, segments, i, p');
    }
  }

  lemma LinkedIsWellFormed(root: Path, segments: seq<string>, i: nat, plugins: Plugins)
    requires ComesTo(root, segments, i)
    ensures WellFormed(Linked(root, segments, i, plugins)) && RealRoot(Linked(root, segments, i, plugins), root)
    ensures forall path | IsLink(Linked(root, segments, i, plugins), path) :: path == Clean(segments[..i])
  {
    var files := Linked(root, segments, i, plugins);
    forall p, p' | p in files && p' in files && p < p' ensures files[p].Directory? {
      if p == Clean(segments[..i]) || p == StatePath(root) {
        NothingBelow(root, segments, i, plugins, p, p');
      }
    }
    forall k | 0 < k <= |root| ensures !IsLink(files, root[..k]) {
      assert root[..k] <= root;
    }
  }

  /** A walk through directories that comes to a link goes on from there. */
  lemma WalkJumps(files: Files, segments: seq<string>, i: nat, links: nat)
    requires 0 < i < |segments| && Plain(segments[i - 1]) && IsLink(files, Clean(segments[..i])) && links > 0
    requires forall j | 0 < j < i :: !IsLink(files, Clean(segments[..j])) && IsDirectory(files, Clean(segments[..j]))
    ensures Walk(files, [], segments, false, links) == Walk(files, [], files[Clean(segments[..i])].target + segments[i..], false, links - 1)
  {
    forall j | 0 < j <= i - 1 ensures !IsLink(files, Clean([] + segments[..j])) && IsDirectory(files, Clean([] + segments[..j])) {
      assert [] + segments[..j] == segments[..j];
    }
    WalkFollows(files, [], segments, i - 1, links);
    assert [] + segments[..i - 1] == segments[..i - 1];
    assert segments[..i] == segments[..i - 1] + [segments[i - 1]];
    CleanAppend(segments[..i - 1], segments[i - 1]);
    assert segments[i - 1..][1..] == segments[i..];
  }

  /** A walk down to a directory and on through directories arrives. */
  lemma WalkGoesOn(files: Files, at: Path, tail: seq<string>, links: nat)
    requires Ends(tail) && at in files && forall j | 0 < j < |at| :: !IsLink(files, at[..j])
    requires forall j | 0 <= j < |tail| :: !IsLink(files, Clean(at + tail[..j])) && IsDirectory(files, Clean(at + tail[..j]))
    ensures Walk(files, [], at + tail, false, links) == Ok(Clean(at + tail))
  {
    var way := at + tail;
    forall j | 0 < j < |way| ensures !IsLink(files, Clean([] + way[..j])) && IsDirectory(files, Clean([] + way[..j])) {
      assert [] + way[..j] == way[..j];
      if j < |at| {
        assert way[..j] == at[..j] && at[..j] < at;
        CleanFixesPaths(at[..j]);
      } else {
        assert way[..j] == at + tail[..j - |at|];
      }
    }
    assert [] + way == way;
    WalkArrives(files, [], way, links);
  }

  /** The directories the tree has on either side of its link. */
  lemma NearIsThere(root: Path, segments: seq<string>, i: nat, plugins: Plugins, j: nat)
    requires ComesTo(root, segments, i) && j < i
    ensures var files, p := Linked(root, segments, i, plugins), Clean(segments[..j]); p in files && files[p] == Directory
  {
    assert [] + segments[..j] == segments[..j] && segments[..i - 1][..j] == segments[..j];
    assert Clean(segments[..j]) in Places([], segments[..i - 1]);
    BeforeIt(root, segments, i, Clean(segments[..j]));
  }

  lemma FarIsThere(root: Path, segments: seq<string>, i: nat, plugins: Plugins, j: nat)
    requires ComesTo(root, segments, i) && j <= |segments[i..]|
    ensures var files, p := Linked(root, segments, i, plugins), Clean(Far(root, segments, i) + segments[i..][..j]);
      p in files && files[p] == Directory && !(root <= p) && p != StatePath(root) && !(p < StatePath(root))
  {
    var at, tail := Far(root, segments, i), segments[i..];
    var p := Clean(at + tail[..j]);
    assert p in Places(at, tail);
    InFar(root, segments, i, p);
    assert Clean(segments[..i]) != [] && StatePath(root)[0] == root[0];
  }

  lemma FarIsReached(root: Path, segments: seq<string>, i: nat, plugins: Plugins)
    requires ComesTo(root, segments, i)
    ensures var files, at := Linked(root, segments, i, plugins), Far(root, segments, i);
      at in files && forall j | 0 < j < |at| :: !IsLink(files, at[..j])
  {
    var at := Far(root, segments, i);
    CleanFixesPaths(at);
    assert at + segments[i..][..0] == at;
    FarIsThere(root, segments, i, plugins, 0);
    LinkedIsWellFormed(root, segments, i, plugins);
    forall j | 0 < j < |at| ensures at[..j] != Clean(segments[..i]) {
      assert at[..j][0] == Strange(root, segments, i);
    }
  }

  lemma LinkedJumps(root: Path, segments: seq<string>, i: nat, plugins: Plugins)
    requires ComesTo(root, segments, i)
    ensures Walk(Linked(root, segments, i, plugins), [], segments, false, MAX_LINKS)
      == Walk(Linked(root, segments, i, plugins), [], Far(root, segments, i) + segments[i..], false, MAX_LINKS - 1)
  {
    var files := Linked(root, segments, i, plugins);
    assert IsLink(files, Clean(segments[..i])) && files[Clean(segments[..i])].target == Far(root, segments, i);
    forall j | 0 < j < i ensures !IsLink(files, Clean(segments[..j])) && IsDirectory(files, Clean(segments[..j])) {
      NearIsThere(root, segments, i, plugins, j);
    }
    WalkJumps(files, segments, i, MAX_LINKS);
  }

  /** In that tree the way ends far from the root. */
  lemma LinkedArrives(root: Path, segments: seq<string>, i: nat, plugins: Plugins)
    requires ComesTo(root, segments, i)
    ensures Walk(Linked(root, segments, i, plugins), [], segments, false, MAX_LINKS) == Ok(Clean(Far(root, segments, i) + segments[i..]))
  {
    var files, at, tail := Linked(root, segments, i, plugins), Far(root, segments, i), segments[i..];
    LinkedJumps(root, segments, i, plugins);
    FarIsReached(root, segments, i, plugins);
    forall j | 0 <= j < |tail| ensures !IsLink(files, Clean(at + tail[..j])) && IsDirectory(files, Clean(at + tail[..j])) {
      FarIsThere(root, segments, i, plugins, j);
    }
    WalkGoesOn(files, at, tail, MAX_LINKS - 1);
  }

  /** Nothing in that tree is below the place where the way ends, unless it doubles back. */
  lemma EndIsEmpty(root: Path, segments: seq<string>, i: nat, plugins: Plugins)
    requires ComesTo(root, segments, i) && !DoublesBack(segments[i..])
    ensures !HasChildren(Linked(root, segments, i, plugins), Clean(Far(root, segments, i) + segments[i..]))
  {
    var tail, end := segments[i..], Clean(Far(root, segments, i) + segments[i..]);
    assert tail[..|tail|] == tail;
    StaysDeep(Strange(root, segments, i), tail, |tail|);
    assert Clean(segments[..i]) != [] && StatePath(root)[0] == root[0];
    forall p | p in Linked(root, segments, i, plugins) ensures !(end < p) {
      if p in Trail([], segments[..i - 1]) {
        var j :| 0 <= j <= |segments[..i - 1]| && p == Clean([] + segments[..i - 1][..j]);
        FirstIsSpelled([] + segments[..i - 1][..j]);
      } else if p in Trail(Far(root, segments, i), tail) {
        var j :| 0 <= j <= |tail| && p == Clean(Far(root, segments, i) + tail[..j]);
        if j < |tail| {
          EndsEmpty(Strange(root, segments, i), tail, j);
        }
      }
    }
  }

  lemma {:induction false} FirstIsSpelled(segments: seq<string>)
    ensures Clean(segments) != [] ==> Clean(segments)[0] in segments
  {
    if segments != [] {
      FirstIsSpelled(segments[..|segments| - 1]);
    }
  }

  // ---- Exactly those ----------------------------------------------------------------------

  /** The files when Remove comes to delete. */
  function AtDeletion(files: Files, root: Path, name: string): Files
    requires ReadState(files, root).Some?
  {
    WriteState(files, root, ReadState(files, root).value - {name})
  }

  /** What Remove then acts on, if anything, is under the root. */
  ghost predicate AimsInside(files: Files, root: Path, cwd: Path, name: string, binary: RawPath)
    requires ReadState(files, root).Some?
  {
    var at := Target(AtDeletion(files, root, name), cwd, binary);
    at.Ok? ==> root < at.value
  }

  function Entries(binary: RawPath): Plugins {
    map["p" := InstalledPlugin(binary, Bytes(""), 0)]
  }

  lemma DeletedOutside(files: Files, root: Path, home: Option<Path>, cwd: Path, binary: RawPath, end: Path)
    requires ReadState(files, root) == Some(Entries(binary)) && ValidateBinaryPath(binary, root, home).Ok?
    requires var between := AtDeletion(files, root, "p");
      Target(between, cwd, binary) == Ok(end) && !HasChildren(between, end)
    requires end in files && end != StatePath(root) && !(root < end)
    ensures end !in AfterRemove(files, "p", root, home, cwd, true)
    ensures !OutsideKept(files, AfterRemove(files, "p", root, home, cwd, true), root)
  {
    assert ValidName("p");
    assert end !in AfterRemove(files, "p", root, home, cwd, true);
  }

  lemma TargetOf(files: Files, cwd: Path, binary: RawPath, end: Path)
    requires Ends(Trimmed(Spelled(binary))) && end in files && files[end].Directory?
    requires Walk(files, if binary.Absolute? then [] else cwd, Trimmed(Spelled(binary)), false, MAX_LINKS) == Ok(end)
    ensures Target(files, cwd, binary) == Ok(end)
  {
  }

  /** A link on the way of an absolute record can lead its removal out of the root. */
  lemma LinkEscapes(root: Path, home: Option<Path>, binary: RawPath, i: nat)
    requires binary.Absolute? && ValidateBinaryPath(binary, root, home).Ok? && ComesTo(root, Trimmed(binary.segments), i)
    ensures var segments := Trimmed(binary.segments);
      var files := Linked(root, segments, i, Entries(binary));
      && Records(files, root, {Clean(segments[..i])}, "p", binary) && !AimsInside(files, root, [], "p", binary)
      && (!DoublesBack(segments[i..]) ==> !OutsideKept(files, AfterRemove(files, "p", root, home, [], true), root))
  {
    var segments := Trimmed(binary.segments);
    var files := Linked(root, segments, i, Entries(binary));
    var tail, end := segments[i..], Clean(Far(root, segments, i) + segments[i..]);
    assert Entries(binary) - {"p"} == map[];
    assert AtDeletion(files, root, "p") == Linked(root, segments, i, map[]);
    assert tail[..|tail|] == tail;
    LinkedIsWellFormed(root, segments, i, Entries(binary));
    FarIsThere(root, segments, i, Entries(binary), |tail|);
    FarIsThere(root, segments, i, map[], |tail|);
    LinkedArrives(root, segments, i, map[]);
    TargetOf(Linked(root, segments, i, map[]), [], binary, end);
    assert root < end ==> root <= end;
    if !DoublesBack(tail) {
      EndIsEmpty(root, segments, i, map[]);
      DeletedOutside(files, root, home, [], binary, end);
    }
  }

  /** A host without links whose state records binary, with the directories its spelling visits from far away. */
  function Homely(root: Path, binary: RawPath, plugins: Plugins): Files {
    var segments := Trimmed(Spelled(binary));
    WithState(Trail(Far(root, segments, 0), segments), root, plugins)
  }

  lemma HomelyIsWellFormed(root: Path, binary: RawPath, plugins: Plugins, j: nat)
    requires root != [] && j <= |Trimmed(Spelled(binary))|
    ensures var files, segments := Homely(root, binary, plugins), Trimmed(Spelled(binary));
      var p := Clean(Far(root, segments, 0) + segments[..j]);
      && WellFormed(files) && RealRoot(files, root) && (forall path :: !IsLink(files, path))
      && p in files && files[p] == Directory && !(root <= p) && p != StatePath(root)
  {
    var files, segments := Homely(root, binary, plugins), Trimmed(Spelled(binary));
    assert segments[0..] == segments && StatePath(root)[0] == root[0];
    forall p | p in Trail(Far(root, segments, 0), segments) ensures p != [] && p[0] == Strange(root, segments, 0) {
      InFar(root, segments, 0, p);
    }
    assert Clean(Far(root, segments, 0) + segments[..j]) in Places(Far(root, segments, 0), segments);
  }

  /** A record "~/x" passes the check, and what goes is "~/x" in the working directory. */
  lemma HomeRecordEscapes(root: Path, home: Option<Path>, binary: RawPath)
    requires root != [] && binary.Home? && ValidateBinaryPath(binary, root, home).Ok? && Ends(Trimmed(Spelled(binary)))
    ensures var segments := Trimmed(Spelled(binary));
      var files, cwd := Homely(root, binary, Entries(binary)), Far(root, segments, 0);
      && Records(files, root, {}, "p", binary) && !AimsInside(files, root, cwd, "p", binary)
      && (!DoublesBack(segments) ==> !OutsideKept(files, AfterRemove(files, "p", root, home, cwd, true), root))
  {
    var segments := Trimmed(Spelled(binary));
    var files, between, cwd := Homely(root, binary, Entries(binary)), Homely(root, binary, map[]), Far(root, segments, 0);
    var end := Clean(cwd + segments);
    assert Entries(binary) - {"p"} == map[];
    assert AtDeletion(files, root, "p") == between;
    assert segments[..|segments|] == segments;
    HomelyIsWellFormed(root, binary, Entries(binary), |segments|);
    forall j | 0 < j <= |segments| ensures !IsLink(between, Clean(cwd + segments[..j])) && IsDirectory(between, Clean(cwd + segments[..j])) {
      HomelyIsWellFormed(root, binary, map[], j);
    }
    WalkArrives(between, cwd, segments, MAX_LINKS);
    HomelyIsWellFormed(root, binary, map[], |segments|);
    TargetOf(between, cwd, binary, end);
    assert root < end ==> root <= end;
    if !DoublesBack(segments) {
      HomelyEndIsEmpty(root, binary, map[]);
      DeletedOutside(files, root, home, cwd, binary, end);
    }
  }

  lemma HomelyEndIsEmpty(root: Path, binary: RawPath, plugins: Plugins)
    requires root != [] && Ends(Trimmed(Spelled(binary))) && !DoublesBack(Trimmed(Spelled(binary)))
    ensures var segments := Trimmed(Spelled(binary));
      !HasChildren(Homely(root, binary, plugins), Clean(Far(root, segments, 0) + segments))
  {
    var segments := Trimmed(Spelled(binary));
    var cwd := Far(root, segments, 0);
    assert segments[0..] == segments && segments[..|segments|] == segments && StatePath(root)[0] == root[0];
    StaysDeep(Strange(root, segments, 0), segments, |segments|);
    forall p | p in Trail(cwd, segments) ensures !(Clean(cwd + segments) < p) {
      var j :| 0 <= j <= |segments| && p == Clean(cwd + segments[..j]);
      if j < |segments| {
        EndsEmpty(Strange(root, segments, 0), segments, j);
      }
    }
  }

  lemma ConfinedAimsInside(files: Files, root: Path, home: Option<Path>, cwd: Path, links: set<Path>, name: string, binary: RawPath)
    requires ValidateBinaryPath(binary, root, home).Ok? && Records(files, root, links, name, binary) && Confined(root, binary, links)
    ensures AimsInside(files, root, cwd, name, binary)
    ensures OutsideKept(files, AfterRemove(files, name, root, home, cwd, true), root)
  {
    ConfinedHasPlainWay(files, root, links, name, binary);
    StateIsNoDirectory(files, root, links, name, binary);
    WriteKeepsWay(files, root, ReadState(files, root).value - {name}, binary);
    PlainWayAims(AtDeletion(files, root, name), root, home, cwd, binary);
    RemoveStaysUnderRoot(files, name, root, home, cwd, true);
  }

  lemma {:induction false} SomeFirstHit(root: Path, links: set<Path>, segments: seq<string>, i: nat) returns (k: nat)
    requires Hits(root, links, segments, i)
    ensures k <= i && Hits(root, links, segments, k) && forall j | 0 < j < k :: !Hits(root, links, segments, j)
    decreases i
  {
    if j :| 0 < j < i && Hits(root, links, segments, j) {
      k := SomeFirstHit(root, links, segments, j);
    } else {
      k := i;
    }
  }

  /** For a record the check accepts that is not confined, some tree leads the removal out of the root. */
  lemma UnconfinedEscapes(root: Path, home: Option<Path>, binary: RawPath, links: set<Path>) returns (files: Files, cwd: Path, i: nat)
    requires root != [] && ValidateBinaryPath(binary, root, home).Ok? && !Confined(root, binary, links)
    ensures i < |Trimmed(Spelled(binary))| && (i == 0 <==> binary.Home?) && (i > 0 ==> Hits(root, links, Trimmed(Spelled(binary)), i))
    ensures Records(files, root, links, "p", binary) && !AimsInside(files, root, cwd, "p", binary)
    ensures !DoublesBack(Trimmed(Spelled(binary))[i..]) ==> !OutsideKept(files, AfterRemove(files, "p", root, home, cwd, true), root)
  {
    var segments := Trimmed(Spelled(binary));
    if binary.Home? {
      HomeRecordEscapes(root, home, binary);
      files, cwd, i := Homely(root, binary, Entries(binary)), Far(root, segments, 0), 0;
      assert segments[0..] == segments;
    } else {
      var hit :| Hits(root, links, segments, hit);
      i := SomeFirstHit(root, links, segments, hit);
      FirstHit(root, links, segments, i);
      LinkEscapes(root, home, binary, i);
      files, cwd := Linked(root, segments, i, Entries(binary)), [];
    }
  }

  /** In every such tree, from every working directory, what is outside the root is kept. */
  ghost predicate AlwaysKept(root: Path, home: Option<Path>, binary: RawPath, links: set<Path>) {
    forall files, cwd, name | Records(files, root, links, name, binary) ::
      OutsideKept(files, AfterRemove(files, name, root, home, cwd, true), root)
  }

  /**
   Of the records the check accepts, spelled in whatever way, a removal acts inside the root only, in every
   file tree with links at the given places and from every working directory, exactly for the confined ones.
   */
  lemma RemovalAimsInsideIff(root: Path, home: Option<Path>, binary: RawPath, links: set<Path>)
    requires root != [] && ValidateBinaryPath(binary, root, home).Ok?
    ensures (forall files, cwd, name | Records(files, root, links, name, binary) :: AimsInside(files, root, cwd, name, binary))
      <==> Confined(root, binary, links)
  {
    if Confined(root, binary, links) {
      forall files, cwd, name | Records(files, root, links, name, binary) ensures AimsInside(files, root, cwd, name, binary) {
        ConfinedAimsInside(files, root, home, cwd, links, name, binary);
      }
    } else {
      var files, cwd, i := UnconfinedEscapes(root, home, binary, links);
    }
  }

  /** No walk goes below the place it ends at, from the working directory or from a link on its way. */
  ghost predicate GoesStraight(root: Path, binary: RawPath, links: set<Path>) {
    var segments := Trimmed(Spelled(binary));
    forall i | 0 <= i < |segments| && (if binary.Home? then i == 0 else Hits(root, links, segments, i)) :: !DoublesBack(segments[i..])
  }

  /** And what is outside the root is then kept; for a walk that goes straight, only then. */
  lemma RemovalStaysIff(root: Path, home: Option<Path>, binary: RawPath, links: set<Path>)
    requires root != [] && ValidateBinaryPath(binary, root, home).Ok?
    ensures Confined(root, binary, links) ==> AlwaysKept(root, home, binary, links)
    ensures GoesStraight(root, binary, links) ==> (AlwaysKept(root, home, binary, links) <==> Confined(root, binary, links))
  {
    if Confined(root, binary, links) {
      forall files, cwd, name | Records(files, root, links, name, binary)
        ensures OutsideKept(files, AfterRemove(files, name, root, home, cwd, true), root)
      {
        ConfinedAimsInside(files, root, home, cwd, links, name, binary);
      }
    } else if GoesStraight(root, binary, links) {
      var files, cwd, i := UnconfinedEscapes(root, home, binary, links);
      assert !DoublesBack(Trimmed(Spelled(binary))[i..]);
    }
  }

  const DOTTED: seq<string> := ["r", "l", "..", "x"]

  /** /r/l is a link to /a/d, and /a/x a file. */
  function Dotted(plugins: Plugins): Files {
    map[["r", "l"] := Symlink(["a", "d"]), ["a", "d"] := Directory, ["a", "x"] := File(Bytes("")),
        StatePath(["r"]) := File(StateJson(CURRENT_STATE_VERSION, plugins))]
  }

  lemma CleanOfFour(a: string, b: string, d: string)
    requires Plain(a) && Plain(b) && Plain(d)
    ensures Clean([a, b, "..", d]) == [a, d] && Clean([a, b, ".."]) == [a] && Clean([a, b]) == [a, b] && Clean([a]) == [a] && Clean([]) == []
  {
    CleanAppend([], a);
    CleanAppend([a], b);
    CleanAppend([a, b], "..");
    CleanAppend([a, b, ".."], d);
    assert [] + [a] == [a] && [a] + [b] == [a, b] && [a, b] + [".."] == [a, b, ".."] && [a, b, ".."] + [d] == [a, b, "..", d];
  }

  lemma DottedIsATree(plugins: Plugins)
    ensures var files := Dotted(plugins);
      && WellFormed(files) && RealRoot(files, ["r"]) && (forall p | p in files :: |p| == 2)
      && (forall p :: IsLink(files, p) <==> p == ["r", "l"]) && ["r", "l"] in files && files[["r", "l"]] == Symlink(["a", "d"])
      && IsDirectory(files, ["r"]) && IsDirectory(files, ["a"]) && IsDirectory(files, ["a", "d"])
  {
    var files := Dotted(plugins);
    DottedNamesDiffer();
    assert ["r", "l"] in files && ["r"] < ["r", "l"] && ["a", "d"] in files && ["a"] < ["a", "d"];
    forall p: Path | p in files ensures |p| == 2 && (IsLink(files, p) <==> p == ["r", "l"]) {
      assert p == ["r", "l"] || p == ["a", "d"] || p == ["a", "x"] || p == StatePath(["r"]);
    }
  }

  lemma DottedNamesDiffer()
    ensures ["r", "l"] != ["a", "d"] && ["r", "l"] != ["a", "x"] && ["r", "l"] != StatePath(["r"])
    ensures ["a", "d"] != ["a", "x"] && ["a", "d"] != StatePath(["r"]) && ["a", "x"] != StatePath(["r"])
  {
    assert "r"[0] != "a"[0] && "d"[0] != "x"[0] && |"l"| != |"state.json"| && |"d"| != |"state.json"| && |"x"| != |"state.json"|;
    assert ["r", "l"][0] != ["a", "d"][0] && ["r", "l"][1] != StatePath(["r"])[1] && ["a", "d"][1] != ["a", "x"][1];
    assert ["a", "d"][1] != StatePath(["r"])[1] && ["a", "x"][1] != StatePath(["r"])[1] && ["r", "l"][0] != ["a", "x"][0];
  }

  /** A link followed by ".." and a name leads beside where the link leads. */
  lemma UpFromLink(files: Files, r: string, l: string, x: string, a: string, d: string)
    requires Plain(r) && Plain(l) && Plain(x) && Plain(a) && Plain(d)
    requires [r, l] in files && files[[r, l]] == Symlink([a, d]) && !IsLink(files, [r]) && IsDirectory(files, [r])
    requires !IsLink(files, [a]) && IsDirectory(files, [a]) && !IsLink(files, [a, d]) && IsDirectory(files, [a, d])
    ensures Walk(files, [], [r, l, "..", x], false, MAX_LINKS) == Ok([a, x])
  {
    var way := [r, l, "..", x];
    CleanOfFour(r, l, x);
    assert way[..1] == [r] && way[..2] == [r, l] && way[2..] == ["..", x];
    WalkJumps(files, way, 2, MAX_LINKS);
    assert [a, d] + ["..", x] == [a, d, "..", x];
    UpFromDirectory(files, a, d, x);
  }

  lemma UpFromDirectory(files: Files, a: string, d: string, x: string)
    requires Plain(x) && Plain(a) && Plain(d)
    requires !IsLink(files, [a]) && IsDirectory(files, [a]) && !IsLink(files, [a, d]) && IsDirectory(files, [a, d])
    ensures Walk(files, [], [a, d, "..", x], false, MAX_LINKS - 1) == Ok([a, x])
  {
    var way := [a, d, "..", x];
    CleanOfFour(a, d, x);
    forall j | 0 < j < 4 ensures !IsLink(files, Clean([] + way[..j])) && IsDirectory(files, Clean([] + way[..j])) {
      if j == 1 {
        assert [] + way[..j] == [a];
      } else if j == 2 {
        assert [] + way[..j] == [a, d];
      } else {
        assert [] + way[..j] == [a, d, ".."];
      }
    }
    assert [] + way == way;
    WalkArrives(files, [], way, MAX_LINKS - 1);
  }

  /** The record /r/l/../x is cleaned to /r/x and passes the check of root /r; the system takes the dots from where the link leads, and /a/x goes. */
  lemma DottedRecordEscapes(home: Option<Path>, cwd: Path)
    ensures ValidateBinaryPath(Absolute(DOTTED), ["r"], home) == Ok(["r", "x"])
    ensures var files := Dotted(Entries(Absolute(DOTTED)));
      && Records(files, ["r"], {["r", "l"]}, "p", Absolute(DOTTED))
      && ["a", "x"] in files && ["a", "x"] !in AfterRemove(files, "p", ["r"], home, cwd, true)
  {
    var files := Dotted(Entries(Absolute(DOTTED)));
    DottedAtDeletion();
    DottedIsAccepted(home);
    DottedTarget(cwd);
    DottedNamesDiffer();
    DeletedOutside(files, ["r"], home, cwd, Absolute(DOTTED), ["a", "x"]);
  }

  lemma DottedState(plugins: Plugins, plugins': Plugins)
    ensures ReadState(Dotted(plugins), ["r"]) == Some(plugins) && ["a", "x"] in Dotted(plugins)
    ensures WriteState(Dotted(plugins), ["r"], plugins') == Dotted(plugins')
  {
    DottedNamesDiffer();
  }

  lemma DottedAtDeletion()
    ensures var files := Dotted(Entries(Absolute(DOTTED)));
      && Records(files, ["r"], {["r", "l"]}, "p", Absolute(DOTTED)) && ["a", "x"] in files
      && ReadState(files, ["r"]) == Some(Entries(Absolute(DOTTED))) && AtDeletion(files, ["r"], "p") == Dotted(map[])
  {
    DottedIsATree(Entries(Absolute(DOTTED)));
    DottedState(Entries(Absolute(DOTTED)), map[]);
    assert ValidName("p") && Entries(Absolute(DOTTED)) - {"p"} == map[];
  }

  lemma DottedIsAccepted(home: Option<Path>)
    ensures ValidateBinaryPath(Absolute(DOTTED), ["r"], home) == Ok(["r", "x"])
  {
    CleanOfFour("r", "l", "x");
    assert ["r"] < ["r", "x"];
  }

  lemma DottedTarget(cwd: Path)
    ensures Target(Dotted(map[]), cwd, Absolute(DOTTED)) == Ok(["a", "x"]) && !HasChildren(Dotted(map[]), ["a", "x"])
  {
    DottedIsATree(map[]);
    UpFromLink(Dotted(map[]), "r", "l", "x", "a", "d");
    assert Trimmed(Spelled(Absolute(DOTTED))) == DOTTED && Plain(DOTTED[3]);
  }

  // ---- Doubling back ----------------------------------------------------------------------

  /** With no link on the way down to p, a walk through it comes there or fails. */
  lemma {:induction false} WalkDown(files: Files, at: Path, p: Path, rest: seq<string>, links: nat)
    requires rest != [] && forall j | 0 < j <= |p| :: !IsLink(files, at + p[..j])
    ensures var r := Walk(files, at, p + rest, false, links); r.Err? || r == Walk(files, at + p, rest, false, links)
    decreases |p|
  {
    if p == [] {
      assert at + p == at && p + rest == rest;
    } else {
      var next := at + [p[0]];
      assert Plain(p[0]) && p[..1] == [p[0]] && (p + rest)[1..] == p[1..] + rest && next + p[1..] == at + p;
      forall j | 0 < j <= |p[1..]| ensures !IsLink(files, next + p[1..][..j]) {
        assert next + p[1..][..j] == at + p[..j + 1];
      }
      WalkDown(files, next, p[1..], rest, links);
    }
  }

  /** A link to a place below itself leads nowhere. */
  lemma {:induction false} LoopFails(files: Files, q: Path, rest: seq<string>, links: nat)
    requires rest != [] && q != [] && IsLink(files, q) && q <= files[q].target
    requires forall j | 0 < j < |q| :: !IsLink(files, q[..j])
    ensures Walk(files, [], files[q].target + rest, false, links).Err?
    decreases links
  {
    var target := files[q].target;
    var k := |q| - 1;
    var above, below := q[..k], target[|q|..] + rest;
    assert target + rest == above + ([q[k]] + below) && above + [q[k]] == q && Plain(q[k]);
    forall j | 0 < j <= |above| ensures !IsLink(files, [] + above[..j]) {
      assert [] + above[..j] == q[..j];
    }
    WalkDown(files, [], above, [q[k]] + below, links);
    assert [] + above == above && ([q[k]] + below)[1..] == below;
    if links > 0 {
      LoopFails(files, q, below, links - 1);
    }
  }

  /** A walk that enters y in x, comes back and ends at x ends at a directory with something in it. */
  lemma EndsInUse(files: Files, at: Path, x: string, y: string, links: nat)
    requires Plain(x) && Plain(y) && !IsLink(files, at + [x]) && !IsLink(files, at + [x, y])
    ensures var r := Walk(files, at, [x, y, "..", "..", x], false, links); r.Ok? ==> r.value == at + [x] && HasChildren(files, r.value)
  {
    var way := [x, y, "..", "..", x];
    WalkStep(files, at, way, links);
    CleanFixesPaths(at);
    CleanAppend(at, x);
    var inX := at + [x];
    assert way[1..] == [y, "..", "..", x];
    if IsDirectory(files, inX) {
      CleanFixesPaths(inX);
      CleanAppend(inX, y);
      assert inX + [y] == at + [x, y];
      WalkStep(files, inX, [y, "..", "..", x], links);
      if IsDirectory(files, inX + [y]) {
        ChildHere(files, inX, y);
        BackUp(files, at, x, y, links);
      }
    }
  }

  lemma ChildHere(files: Files, at: Path, name: string)
    requires Plain(name) && IsDirectory(files, at + [name])
    ensures HasChildren(files, at)
  {
    var child := at + [name];
    if child in files {
      assert at < child;
    } else {
      var p :| p in files && child < p;
      assert at < p;
    }
  }

  lemma BackUp(files: Files, at: Path, x: string, y: string, links: nat)
    requires Plain(x) && Plain(y)
    ensures Walk(files, at + [x, y], ["..", "..", x], false, links) == Ok(at + [x])
  {
    assert (at + [x, y])[..|at| + 1] == at + [x] && (at + [x])[..|at|] == at;
    assert ["..", "..", x][1..] == ["..", x] && ["..", x][1..] == [x];
    WalkStep(files, at, [x], links);
    CleanFixesPaths(at);
    CleanAppend(at, x);
  }

  const DOUBLED: seq<string> := ["r", "l", "x", "y", "..", "..", "x"]

  lemma DoubledWalk(files: Files)
    requires forall p | IsLink(files, p) :: p == ["r", "l"]
    ensures var r := Walk(files, [], DOUBLED, false, MAX_LINKS); r.Ok? ==> ["r"] < r.value || HasChildren(files, r.value)
  {
    var q: Path := ["r", "l"];
    var rest := ["x", "y", "..", "..", "x"];
    assert DOUBLED == ["r"] + (["l"] + rest) && [] + ["r"] == ["r"] && ["r"] + ["l"] == q && (["l"] + rest)[1..] == rest;
    WalkDown(files, [], ["r"], ["l"] + rest, MAX_LINKS);
    if IsLink(files, q) {
      var target := files[q].target;
      if q <= target {
        LoopFails(files, q, rest, MAX_LINKS - 1);
      } else {
        forall j | 0 < j <= |target| ensures !IsLink(files, [] + target[..j]) {
          assert [] + target[..j] == target[..j] && target[..j] <= target;
        }
        WalkDown(files, [], target, rest, MAX_LINKS - 1);
        assert [] + target == target && q[|q| - 1] == "l" && (target + ["x"])[|target|] == "x" && (target + ["x", "y"])[|target| + 1] == "y";
        EndsInUse(files, target, "x", "y", MAX_LINKS - 1);
      }
    } else {
      assert q + ["x"] != q && q + ["x", "y"] != q && ["r"] < q + ["x"];
      EndsInUse(files, q, "x", "y", MAX_LINKS);
    }
  }

  lemma DoubledTarget(files: Files, cwd: Path)
    requires forall p | IsLink(files, p) :: p == ["r", "l"]
    ensures var at := Target(files, cwd, Absolute(DOUBLED)); at.Ok? ==> ["r"] < at.value || HasChildren(files, at.value)
  {
    if Target(files, cwd, Absolute(DOUBLED)).Ok? {
      TargetIsWalked(files, cwd, Absolute(DOUBLED));
      assert Trimmed(DOUBLED) == DOUBLED;
      DoubledWalk(files);
    }
  }

  lemma KeptUnlessOutside(files: Files, root: Path, home: Option<Path>, cwd: Path, name: string, binary: RawPath)
    requires ReadState(files, root).Some? && name in ReadState(files, root).value && ReadState(files, root).value[name].binary == binary
    requires var between := AtDeletion(files, root, name);
      var at := Target(between, cwd, binary); at.Ok? ==> root < at.value || HasChildren(between, at.value)
    ensures OutsideKept(files, AfterRemove(files, name, root, home, cwd, true), root)
  {
  }

  /** Why such records are set apart: this one is not confined, and yet its removal never deletes anything outside the root. */
  lemma DoublingBackIsKept(home: Option<Path>)
    ensures ValidateBinaryPath(Absolute(DOUBLED), ["r"], home).Ok?
    ensures !Confined(["r"], Absolute(DOUBLED), {["r", "l"]}) && !GoesStraight(["r"], Absolute(DOUBLED), {["r", "l"]})
    ensures AlwaysKept(["r"], home, Absolute(DOUBLED), {["r", "l"]})
  {
    DoubledIsUnconfined(home);
    DoubledIsAlwaysKept(home);
  }

  lemma DoubledIsAlwaysKept(home: Option<Path>)
    ensures AlwaysKept(["r"], home, Absolute(DOUBLED), {["r", "l"]})
  {
    forall files, cwd, name | Records(files, ["r"], {["r", "l"]}, name, Absolute(DOUBLED))
      ensures OutsideKept(files, AfterRemove(files, name, ["r"], home, cwd, true), ["r"])
    {
      DoubledIsKept(files, cwd, name, home);
    }
  }

  lemma DoubledIsKept(files: Files, cwd: Path, name: string, home: Option<Path>)
    requires Records(files, ["r"], {["r", "l"]}, name, Absolute(DOUBLED))
    ensures OutsideKept(files, AfterRemove(files, name, ["r"], home, cwd, true), ["r"])
  {
    var between := AtDeletion(files, ["r"], name);
    StateIsNoDirectory(files, ["r"], {["r", "l"]}, name, Absolute(DOUBLED));
    forall p | IsLink(between, p) ensures p == ["r", "l"] {
      assert IsLink(files, p);
    }
    DoubledTarget(between, cwd);
    KeptUnlessOutside(files, ["r"], home, cwd, name, Absolute(DOUBLED));
  }

  lemma DoubledIsUnconfined(home: Option<Path>)
    ensures ValidateBinaryPath(Absolute(DOUBLED), ["r"], home).Ok?
    ensures !Confined(["r"], Absolute(DOUBLED), {["r", "l"]}) && !GoesStraight(["r"], Absolute(DOUBLED), {["r", "l"]})
  {
    assert Trimmed(Spelled(Absolute(DOUBLED))) == DOUBLED && Plain(DOUBLED[6]);
    assert DOUBLED[2..] == ["x", "y", "..", "..", "x"];
    DoubledIsHit();
    DoubledMoves();
  }

  lemma DoubledIsHit()
    ensures Hits(["r"], {["r", "l"]}, DOUBLED, 2)
  {
    assert DOUBLED[..1] == ["r"] && DOUBLED[..2] == ["r", "l"];
    CleanOfFour("r", "l", "x");
    DottedNamesDiffer();
  }

  lemma MoveOn(before: seq<string>, last: string)
    ensures Move(before + [last]) == Moved(Move(before), last)
  {
    assert (before + [last])[..|before|] == before;
  }

  lemma DoubledMoves()
    ensures DoublesBack(["x", "y", "..", "..", "x"])
    ensures ["r"] < Clean(DOUBLED)
  {
    var tail := ["x", "y", "..", "..", "x"];
    MovesOfPair("x", "y");
    assert tail[..2] == ["x", "y"] && ["x"] < ["x", "y"];
    var base: Path := ["r", "l"];
    CleanMoves(base, tail);
    assert base + tail == DOUBLED && ["r"] < base + ["x"];
  }

  lemma MovesOfPair(x: string, y: string)
    requires Plain(x) && Plain(y)
    ensures Move([x, y]) == (0, [x, y]) && Move([x, y, "..", "..", x]) == (0, [x])
  {
    MoveOn([], x);
    assert [] + [x] == [x] && Move([x]) == (0, [x]);
    MoveOn([x], y);
    assert [x] + [y] == [x, y];
    MoveOn([x, y], "..");
    assert [x, y] + [".."] == [x, y, ".."] && [x, y][..1] == [x];
    MoveOn([x, y, ".."], "..");
    assert [x, y, ".."] + [".."] == [x, y, "..", ".."] && [x][..0] == [];
    MoveOn([x, y, "..", ".."], x);
    assert [x, y, "..", ".."] + [x] == [x, y, "..", "..", x];
  }
}
