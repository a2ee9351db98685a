/**
 Whole runs of accepted stages.  Authoring snapshots the checks in the tree and
 pins them with its own; implementation is held to that pinned set.
 */
module GateRuns {
  import opened Options
  import opened PyText
  import opened PathLaws
  import opened PathNames
  import opened GitListing
  import opened Verification

  /** A check the authoring snapshot finds: the walk prunes by directory name and by path. */
  predicate Snapshotted(path: string) {
    && IsCheckPath(path) && !IsByproduct(path)
    && (var parts := Segments(path); forall dir <- parts[..|parts| - 1] :: !IsByproduct(dir))
  }

  /** The snapshot takes exactly the checks none of whose segments is generated, compiled or a coverage file. */
  lemma SnapshottedIff(path: string)
    requires '\\' !in path
    ensures Snapshotted(path) <==> IsCheckPath(path) && forall part <- Segments(path) :: !Dropped(part)
  {
    hide IsByproduct, IsCheckPath, EndsWith, Split;
    var parts := Segments(path);
    assert Slashed(path) == path;
    ByproductIff(path);
    forall i | 0 <= i < |parts| ensures IsByproduct(parts[i]) <==> Dropped(parts[i]) {
      SegmentAlone(path, i);
    }
    assert forall i :: 0 <= i < |parts| - 1 ==> parts[..|parts| - 1][i] == parts[i];
  }

  function ExistingChecks(tree: Tree): map<string, string> {
    map path | path in tree && Snapshotted(path) :: tree[path].hash
  }

  // `ever` keeps the first hash each path was pinned with; `current` is the latest bundle.
  datatype Run = Run(tree: Tree, current: Option<Pinned>, ever: map<string, string>)

  /** The file is new, or has other content. */
  predicate Written(tree: Tree, next: Tree, path: string) {
    path in next && (path in tree ==> tree[path].hash != next[path].hash)
  }

  /** The listing drops what looks like a byproduct. */
  predicate Entered(changed: seq<string>, entry: string) {
    IsByproduct(entry) || entry in changed
  }

  /**
   The change list names every written file, a plain name as it is and any other
   under what one of the two commands makes of it.  A file that is gone may go
   unnamed: git reports a rename under the new name only.
   */
  ghost predicate Lists(changed: seq<string>, tree: Tree, next: Tree) {
    && (forall path <- changed :: !IsByproduct(path))
    && (forall path :: PlainName(path) && Written(tree, next, path) ==> IsByproduct(path) || Touched(changed, path))
    && (forall path :: !PlainName(path) && Written(tree, next, path) ==>
          Entered(changed, StatusEntry(path)) || Entered(changed, DiffEntry(path)))
  }

  predicate SameFile(tree: Tree, next: Tree, path: string) {
    (path in tree <==> path in next) && (path in tree ==> tree[path].hash == next[path].hash)
  }

  function NewChecks(authored: seq<string>, existing: map<string, string>): set<string> {
    set path | path in authored && path !in existing
  }

  /** The author's new checks, else the existing ones the contract declares. */
  function Chosen(authored: seq<string>, declared: set<string>, existing: map<string, string>): set<string> {
    if NewChecks(authored, existing) != {} then NewChecks(authored, existing) else declared
  }

  /** An accepted authoring stage from `r.tree` to `next`. */
  ghost predicate Authors(
      r: Run, next: Tree, existing: Pinned, authored: seq<string>, declared: set<string>, changed: seq<string>) {
    && existing.Valid() && existing.hash == ExistingChecks(r.tree)
    && Lists(changed, r.tree, next)
    && Judge(AuthoringReasons(next, existing, changed)).accepted
    && (forall path <- authored :: !IsByproduct(path) && (path in existing.hash || IsCheckPath(path)))
    && (forall path <- changed :: path in existing.hash || IsCheckPath(path))
    && (forall path <- declared :: IsCheckPath(path) && path in r.tree)
    && Chosen(authored, declared, existing.hash) != {}
    && Chosen(authored, declared, existing.hash) <= next.Keys
  }

  function Protected(next: Tree, existing: map<string, string>, checks: set<string>): map<string, string>
    requires checks <= next.Keys
  {
    existing + map path | path in checks :: next[path].hash
  }

  /**
   What authoring pins: the checks that were there, and beside them the author's
   own files if one of them is new, else the checks the contract declares; the
   latter two with the content they have now.
   */
  lemma PinsAre(next: Tree, existing: map<string, string>, authored: seq<string>, declared: set<string>, path: string)
    requires Chosen(authored, declared, existing) <= next.Keys
    ensures var pins := Protected(next, existing, Chosen(authored, declared, existing));
      var anyNew := exists a <- authored :: a !in existing;
      && (path in pins <==> path in existing || (if anyNew then path in authored else path in declared))
      && (path in existing && (anyNew || path !in declared) ==> pins[path] == existing[path])
      && (path in pins && (path !in existing || (!anyNew && path in declared)) ==> pins[path] == next[path].hash)
  {
    if exists a <- authored :: a !in existing {
      var a :| a in authored && a !in existing;
      assert a in NewChecks(authored, existing);
    }
  }

  ghost predicate AuthorStep(r: Run, s: Run) {
    exists existing, authored, declared, changed ::
      && Authors(r, s.tree, existing, authored, declared, changed)
      && s.current.Some? && s.current.value.Valid()
      && s.current.value.hash == Protected(s.tree, existing.hash, Chosen(authored, declared, existing.hash))
      && s.ever == s.current.value.hash + r.ever
  }

  /** An accepted implementation stage against the current bundle. */
  ghost predicate ImplementStep(r: Run, s: Run) {
    && r.current.Some? && r.current.value.Valid()
    && s == r.(tree := s.tree)
    && exists c, b: Bundle, changed ::
         && b.pinned == r.current.value
         && Lists(changed, r.tree, s.tree)
         && Judge(CandidateReasons(s.tree, c, b, changed)).accepted
  }

  ghost predicate Next(r: Run, s: Run) {
    AuthorStep(r, s) || ImplementStep(r, s)
  }

  ghost predicate Stages(runs: seq<Run>) {
    && runs != [] && runs[0].current.None? && runs[0].ever == map[]
    && forall i :: 0 < i < |runs| ==> Next(runs[i - 1], runs[i])
  }

  // ------------------------------------------------------------ invariant

  ghost predicate EverHeld(tree: Tree, ever: map<string, string>) {
    forall path <- ever :: Snapshotted(path) ==> path in tree && tree[path].hash == ever[path]
  }

  ghost predicate Agrees(hash: map<string, string>, ever: map<string, string>) {
    forall path <- ever :: Snapshotted(path) ==> path in hash && hash[path] == ever[path]
  }

  ghost predicate Intact(tree: Tree, hash: map<string, string>) {
    forall path <- hash :: path in tree && tree[path].hash == hash[path]
  }

  /** No configuration file with a plain name is added or rewritten. */
  ghost predicate ConfigKept(tree: Tree, next: Tree) {
    forall path :: PathName(path) in CONFIG_NAMES && !IsByproduct(path) && PlainName(path) ==>
      !Written(tree, next, path)
  }

  ghost predicate Held(r: Run) {
    && EverHeld(r.tree, r.ever)
    && (r.current.Some? ==> Intact(r.tree, r.current.value.hash) && Agrees(r.current.value.hash, r.ever))
  }

  /** The snapshot covers what was pinned before, so intact snapshots keep it; new pins are read off the new tree. */
  lemma AuthorPins(tree: Tree, next: Tree, existing: map<string, string>, ever: map<string, string>, checks: set<string>)
    requires existing == ExistingChecks(tree) && Intact(next, existing) && EverHeld(tree, ever)
    requires checks <= next.Keys
    ensures var pins := Protected(next, existing, checks);
      Intact(next, pins) && Agrees(pins, ever) && EverHeld(next, pins + ever) && Agrees(pins, pins + ever)
  {
    hide Snapshotted;
  }

  /** A listed configuration file can only pass if it is pinned, and then its hash decides. */
  lemma ConfigHolds(tree: Tree, next: Tree, pins: map<string, string>, changed: seq<string>)
    requires Lists(changed, tree, next) && ConfigUntouched(changed, pins)
    requires Intact(tree, pins) && Intact(next, pins)
    ensures ConfigKept(tree, next)
  {
    hide PathName, IsByproduct, PlainName, StatusEntry, DiffEntry;
  }

  lemma AuthorKeeps(r: Run, s: Run)
    requires Held(r) && AuthorStep(r, s)
    ensures Held(s) && ConfigKept(r.tree, s.tree)
  {
    hide PathName, IsByproduct, Snapshotted, AuthoringReasons, Chosen;
    var existing, authored, declared, changed :|
      && Authors(r, s.tree, existing, authored, declared, changed)
      && s.current.Some? && s.current.value.Valid()
      && s.current.value.hash == Protected(s.tree, existing.hash, Chosen(authored, declared, existing.hash))
      && s.ever == s.current.value.hash + r.ever;
    AuthoringAcceptedIff(s.tree, existing, changed);
    assert Intact(r.tree, existing.hash);
    AuthorPins(r.tree, s.tree, existing.hash, r.ever, Chosen(authored, declared, existing.hash));
    ConfigHolds(r.tree, s.tree, existing.hash, changed);
  }

  lemma ImplementKeeps(r: Run, s: Run)
    requires Held(r) && ImplementStep(r, s)
    ensures Held(s) && ConfigKept(r.tree, s.tree)
  {
    hide PathName, IsByproduct, Snapshotted, CandidateReasons;
    var c: Contract, b: Bundle, changed :|
      && b.pinned == r.current.value
      && Lists(changed, r.tree, s.tree)
      && Judge(CandidateReasons(s.tree, c, b, changed)).accepted;
    AcceptedIff(s.tree, c, b, changed);
    ConfigHolds(r.tree, s.tree, b.pinned.hash, changed);
  }

  lemma {:induction false} StagesHold(runs: seq<Run>)
    requires Stages(runs)
    ensures Held(runs[|runs| - 1])
    ensures |runs| > 1 ==> Stages(runs[..|runs| - 1]) && ConfigKept(runs[|runs| - 2].tree, runs[|runs| - 1].tree)
    decreases |runs|
  {
    hide PathName, IsByproduct, Snapshotted, AuthorStep, ImplementStep, ConfigKept;
    var n := |runs| - 1;
    if n > 0 {
      StagesHold(runs[..n]);
      if AuthorStep(runs[n - 1], runs[n]) {
        AuthorKeeps(runs[n - 1], runs[n]);
      } else {
        ImplementKeeps(runs[n - 1], runs[n]);
      }
    }
  }

  /** After these stages `path`, if it was ever pinned, still has the hash it was first pinned with. */
  ghost predicate Survives(runs: seq<Run>, path: string)
    requires runs != []
  {
    var last := runs[|runs| - 1];
    path in last.ever ==> path in last.tree && last.tree[path].hash == last.ever[path]
  }

  /** Every check ever pinned, if the snapshot can see it, still has the hash it was first pinned with. */
  lemma PinnedChecksSurvive(runs: seq<Run>, path: string)
    requires Stages(runs) && Snapshotted(path)
    ensures Survives(runs, path)
  {
    StagesHold(runs);
  }

  /** What is there at the end was there, with the same content, at the start. */
  ghost predicate NeverWritten(runs: seq<Run>, path: string)
    requires runs != []
  {
    !Written(runs[0].tree, runs[|runs| - 1].tree, path)
  }

  /**
   The exemption of pinned paths opens no hole: over any run of accepted stages
   no verification-configuration file with a plain name is added or changed.
   */
  lemma {:induction false} ConfigurationNeverWritten(runs: seq<Run>, path: string)
    requires Stages(runs) && PathName(path) in CONFIG_NAMES && !IsByproduct(path) && PlainName(path)
    ensures NeverWritten(runs, path)
    decreases |runs|
  {
    hide PathName, IsByproduct, PlainName, Next;
    var n := |runs| - 1;
    if n > 0 {
      StagesHold(runs);
      ConfigurationNeverWritten(runs[..n], path);
    }
  }

  // ------------------------------------------- configuration that is also a check

  /** The current pins, once there are any, include the file. */
  predicate PinnedIfThere(r: Run, path: string) {
    path in r.tree && r.current.Some? ==> path in r.current.value.hash
  }

  lemma PinnedStays(r: Run, s: Run, pins: map<string, string>, path: string)
    requires ConfigKept(r.tree, s.tree)
    requires PathName(path) in CONFIG_NAMES && !IsByproduct(path) && PlainName(path)
    requires Intact(s.tree, pins) && (path in r.tree ==> path in pins)
    ensures SameFile(r.tree, s.tree, path)
  {
  }

  lemma StageKeepsCheck(r: Run, s: Run, path: string)
    requires Held(r) && Next(r, s) && ConfigKept(r.tree, s.tree)
    requires PathName(path) in CONFIG_NAMES && Snapshotted(path) && PlainName(path) && PinnedIfThere(r, path)
    ensures SameFile(r.tree, s.tree, path) && PinnedIfThere(s, path)
  {
    hide PathName, IsByproduct, PlainName, Lists, AuthoringReasons, CandidateReasons, Chosen, ConfigKept;
    if AuthorStep(r, s) {
      var existing, authored, declared, changed :|
        && Authors(r, s.tree, existing, authored, declared, changed)
        && s.current.Some? && s.current.value.Valid()
        && s.current.value.hash == Protected(s.tree, existing.hash, Chosen(authored, declared, existing.hash))
        && s.ever == s.current.value.hash + r.ever;
      AuthoringAcceptedIff(s.tree, existing, changed);
      PinnedStays(r, s, existing.hash, path);
    } else {
      var c: Contract, b: Bundle, changed :|
        && b.pinned == r.current.value
        && Lists(changed, r.tree, s.tree)
        && Judge(CandidateReasons(s.tree, c, b, changed)).accepted;
      AcceptedIff(s.tree, c, b, changed);
      PinnedStays(r, s, b.pinned.hash, path);
    }
  }

  lemma {:induction false} CheckConfigurationStays(runs: seq<Run>, path: string)
    requires Stages(runs) && PathName(path) in CONFIG_NAMES && Snapshotted(path) && PlainName(path)
    ensures SameFile(runs[0].tree, runs[|runs| - 1].tree, path) && PinnedIfThere(runs[|runs| - 1], path)
    decreases |runs|
  {
    hide PathName, PlainName, Snapshotted, Next, Held, ConfigKept;
    var n := |runs| - 1;
    if n > 0 {
      StagesHold(runs);
      StagesHold(runs[..n]);
      CheckConfigurationStays(runs[..n], path);
      StageKeepsCheck(runs[n - 1], runs[n], path);
    }
  }

  // ------------------------------------------------------------ exactness

  function Single(path: string, hash: string): Tree {
    map[path := File(hash, None)]
  }

  function PinOne(path: string, hash: string): Pinned {
    Pinned([path], map[path := hash])
  }

  // A check whose name nothing is special about.
  const CHECK := "test_x"

  lemma OneSegment(name: string)
    requires name != "" && name != "." && '/' !in name
    ensures Segments(name) == [name] && AsPosix(name) == name && PathName(name) == name
  {
    SlashFree(name);
    PosixKeeps(name);
    NameIsLast("", name);
  }

  lemma DotFree(name: string)
    requires name != "" && '/' !in name && '\\' !in name && '.' !in name && name !in BYPRODUCT_DIRS
    ensures !IsByproduct(name)
  {
    hide EndsWith, Segments, BYPRODUCT_DIRS;
    OneSegment(name);
    assert Slashed(name) == name;
    NoDotSuffix(name, ".pyc");
    NoDotSuffix(name, ".pyo");
    NoDotSuffix(name, ".egg-info");
    assert name[0] in name;
  }

  lemma NoDotSuffix(name: string, suffix: string)
    requires '.' !in name && suffix != "" && suffix[0] == '.'
    ensures !EndsWith(name, suffix)
  {
    assert |suffix| <= |name| ==> name[|name| - |suffix|..][0] in name;
  }

  lemma TestNamed(name: string)
    requires "test_" <= name && '/' !in name && '\\' !in name
    ensures IsCheckPath(name)
  {
    assert Slashed(name) == name;
    assert RStrip(name, IsSlash) == name;
    BaseAfterSlash("", name);
    assert "" + name == name;
  }

  lemma PlainCheck()
    ensures Snapshotted(CHECK) && IsCheckPath(CHECK) && !IsByproduct(CHECK)
    ensures PlainName(CHECK) && AsPosix(CHECK) == CHECK
    ensures PathName(CHECK) !in CONFIG_NAMES
  {
    hide IsCheckPath, IsByproduct, AsPosix, PathName, Segments, PlainName;
    OneSegment(CHECK);
    TestNamed(CHECK);
    DotFree(CHECK);
    PlainLetters();
  }

  lemma PlainLetters()
    ensures PlainName(CHECK)
  {
  }

  lemma NotTheCheck(path: string)
    requires PathName(path) in CONFIG_NAMES
    ensures path != CHECK
  {
    hide PathName, IsByproduct, IsCheckPath, PlainName, AsPosix, Snapshotted, CONFIG_NAMES;
    PlainCheck();
  }

  // ---------------------------------------------- stages that are accepted

  lemma NothingSeen(tree: Tree)
    requires forall path <- tree :: !Snapshotted(path)
    ensures ExistingChecks(tree) == map[]
  {
    hide Snapshotted;
  }

  lemma AuthoringPasses(next: Tree, changed: seq<string>)
    requires forall path <- changed :: path == CHECK
    ensures Judge(AuthoringReasons(next, Pinned([], map[]), changed)).accepted
  {
    hide PathName, AsPosix, Snapshotted, PlainName;
    PlainCheck();
    AuthoringAcceptedIff(next, Pinned([], map[]), changed);
  }

  lemma NothingWritten(tree: Tree)
    ensures Lists([], tree, tree)
  {
    hide IsByproduct, PlainName, StatusEntry, DiffEntry;
  }

  /** A contract declares the one check of a tree of which the snapshot sees nothing; it is pinned as it stands. */
  lemma PinsDeclared(path: string)
    requires IsCheckPath(path) && !Snapshotted(path)
    ensures AuthorStep(
      Run(Single(path, "a"), None, map[]),
      Run(Single(path, "a"), Some(PinOne(path, "a")), map[path := "a"]))
  {
    hide IsCheckPath, Snapshotted, PathName, AsPosix, IsByproduct, AuthoringReasons, Lists;
    var r := Run(Single(path, "a"), None, map[]);
    var s := Run(Single(path, "a"), Some(PinOne(path, "a")), map[path := "a"]);
    var existing := Pinned([], map[]);
    NothingSeen(r.tree);
    AuthoringPasses(s.tree, []);
    NothingWritten(r.tree);
    assert NewChecks([], existing.hash) == {};
    assert Chosen([], {path}, existing.hash) == {path};
    assert Protected(s.tree, existing.hash, {path}) == map[path := "a"];
    assert Authors(r, s.tree, existing, [], {path}, []);
    assert s.ever == s.current.value.hash + r.ever;
  }

  lemma OnlyCheckListed(tree: Tree)
    ensures Lists([CHECK], tree, Single(CHECK, "a"))
  {
    hide IsByproduct, AsPosix, PlainName, StatusEntry, DiffEntry, IsCheckPath, PathName, Snapshotted;
    PlainCheck();
    assert CHECK in [CHECK];
  }

  function CheckPinned(ever: map<string, string>): Run {
    Run(Single(CHECK, "a"), Some(PinOne(CHECK, "a")), map[CHECK := "a"] + ever)
  }

  lemma CheckChosen()
    ensures Chosen([CHECK], {}, map[]) == {CHECK}
    ensures Protected(Single(CHECK, "a"), map[], {CHECK}) == map[CHECK := "a"]
  {
    hide CHECK;
    assert NewChecks([CHECK], map[]) == {CHECK};
  }

  lemma AuthorsCheck(r: Run)
    requires forall path <- r.tree :: !Snapshotted(path)
    ensures Authors(r, Single(CHECK, "a"), Pinned([], map[]), [CHECK], {}, [CHECK])
  {
    hide Snapshotted, ExistingChecks, IsCheckPath, IsByproduct, AuthoringReasons, Lists, Judge, Chosen, CHECK;
    hide PlainName, AsPosix, PathName;
    PlainCheck();
    NothingSeen(r.tree);
    AuthoringPasses(Single(CHECK, "a"), [CHECK]);
    OnlyCheckListed(r.tree);
    CheckChosen();
  }

  /** The author leaves one new check in place of all files, none of which the snapshot saw: a rename, if there was one. */
  lemma LeavesCheck(r: Run)
    requires forall path <- r.tree :: !Snapshotted(path)
    ensures AuthorStep(r, CheckPinned(r.ever))
  {
    hide Authors, Chosen, Protected, CHECK;
    AuthorsCheck(r);
    CheckChosen();
    assert Pinned([], map[]).Valid() && PinOne(CHECK, "a").Valid();
  }

  // --------------------------------------------- exactly which checks survive

  /**
   A pinned check keeps its hash in every run exactly when the snapshot can see
   it: one the contract declares inside a byproduct directory is pinned for its
   own task, but a later authoring stage may put another in its place.
   */
  lemma PinnedSurvivesIff(path: string)
    requires IsCheckPath(path)
    ensures (forall runs: seq<Run> :: Stages(runs) ==> Survives(runs, path)) <==> Snapshotted(path)
  {
    hide IsCheckPath, Snapshotted, PathName, AsPosix, AuthorStep, ImplementStep;
    if Snapshotted(path) {
      forall runs: seq<Run> | Stages(runs) ensures Survives(runs, path) {
        PinnedChecksSurvive(runs, path);
      }
    } else {
      PlainCheck();
      var r0 := Run(Single(path, "a"), None, map[]);
      var r1 := Run(Single(path, "a"), Some(PinOne(path, "a")), map[path := "a"]);
      PinsDeclared(path);
      LeavesCheck(r1);
      ThreeStages(r0, r1, CheckPinned(r1.ever));
      assert !Survives([r0, r1, CheckPinned(r1.ever)], path);
    }
  }

  // --------------------------------- exactly which configuration files stay

  /** The list of an implementation that adds the one file: empty, or the entry git's status makes of it. */
  function AddedList(path: string): seq<string> {
    if PlainName(path) || IsByproduct(StatusEntry(path)) then [] else [StatusEntry(path)]
  }

  lemma AddedListed(tree: Tree, next: Tree, path: string)
    requires next == tree[path := File("b", None)] && (!PlainName(path) || IsByproduct(path))
    ensures Lists(AddedList(path), tree, next)
  {
    hide IsByproduct, PlainName, StatusEntry, DiffEntry;
  }

  /** No entry of that list has a configuration name: it ends in a quote. */
  lemma AddedHasNoName(path: string, exempt: map<string, string>)
    ensures ConfigUntouched(AddedList(path), exempt)
  {
    hide PathName, AsPosix, PlainName, StatusEntry, IsByproduct;
    forall entry <- AddedList(path) ensures PathName(AsPosix(entry)) !in CONFIG_NAMES {
      QuotedEntryEnds(path);
      PosixEnds(entry, '"');
      PosixEnds(AsPosix(entry), '"');
      NoQuotedName(PathName(AsPosix(entry)));
    }
  }

  lemma NoQuotedName(name: string)
    requires EndsIn(name, '"')
    ensures name !in CONFIG_NAMES
  {
  }

  const FREE_CONTRACT := Contract("t", 0, [], [], [], Tdd)

  /** An implementation stage adds a configuration file the list does not name as one. */
  lemma AddsUnnamed(r: Run, path: string)
    requires !PlainName(path) || IsByproduct(path)
    requires r.current == Some(PinOne(CHECK, "a")) && r.tree == Single(CHECK, "a") && path != CHECK
    ensures ImplementStep(r, r.(tree := r.tree[path := File("b", None)]))
  {
    hide IsByproduct, PlainName, Lists, AddedList, ConfigUntouched;
    var s := r.(tree := r.tree[path := File("b", None)]);
    var c, b := FREE_CONTRACT, Bundle("t", 0, PinOne(CHECK, "a"), true);
    AddedListed(r.tree, s.tree, path);
    AddedHasNoName(path, b.pinned.hash);
    AcceptedIff(s.tree, c, b, AddedList(path));
  }

  lemma AddedUnnoticed(path: string)
    requires PathName(path) in CONFIG_NAMES && (!PlainName(path) || IsByproduct(path))
    ensures exists runs: seq<Run> :: Stages(runs) && !NeverWritten(runs, path)
  {
    hide PathName, PlainName, IsByproduct, Snapshotted, AuthorStep, ImplementStep, CHECK, CONFIG_NAMES;
    NotTheCheck(path);
    var r0 := Run(map[], None, map[]);
    var r1 := CheckPinned(r0.ever);
    var r2 := r1.(tree := r1.tree[path := File("b", None)]);
    LeavesCheck(r0);
    AddsUnnamed(r1, path);
    ThreeStages(r0, r1, r2);
    var runs := [r0, r1, r2];
    assert runs[0] == r0 && runs[|runs| - 1] == r2;
    assert !NeverWritten(runs, path);
  }

  lemma ThreeStages(r0: Run, r1: Run, r2: Run)
    requires r0.current.None? && r0.ever == map[] && Next(r0, r1) && Next(r1, r2)
    ensures Stages([r0, r1, r2])
  {
    hide Next;
  }

  /**
   A configuration file is never added or rewritten, in any run, exactly when git
   prints its name unquoted and the name lies in no byproduct directory.
   */
  lemma ConfigurationNeverWrittenIff(path: string)
    requires PathName(path) in CONFIG_NAMES
    ensures (forall runs: seq<Run> :: Stages(runs) ==> NeverWritten(runs, path))
       <==> PlainName(path) && !IsByproduct(path)
  {
    hide PathName, PlainName, IsByproduct, Next, NeverWritten;
    if PlainName(path) && !IsByproduct(path) {
      forall runs: seq<Run> | Stages(runs) ensures NeverWritten(runs, path) {
        ConfigurationNeverWritten(runs, path);
      }
    } else {
      AddedUnnoticed(path);
    }
  }

  ghost predicate Stays(runs: seq<Run>, path: string)
    requires runs != []
  {
    SameFile(runs[0].tree, runs[|runs| - 1].tree, path)
  }

  lemma RenamedUnnoticed(path: string)
    requires PathName(path) in CONFIG_NAMES && !Snapshotted(path)
    ensures exists runs: seq<Run> :: Stages(runs) && !Stays(runs, path)
  {
    hide PathName, Snapshotted, AuthorStep, ImplementStep;
    NotTheCheck(path);
    var r := Run(Single(path, "a"), None, map[]);
    LeavesCheck(r);
    assert Stages([r, CheckPinned(r.ever)]) && !Stays([r, CheckPinned(r.ever)], path);
  }

  /**
   A configuration file keeps its place and content in every run exactly when git
   prints its name unquoted and the snapshot takes it for a check, so that it is
   pinned: any other can be renamed to a new check, or appear, without its name
   being listed.
   */
  lemma ConfigurationStaysIff(path: string)
    requires PathName(path) in CONFIG_NAMES
    ensures (forall runs: seq<Run> :: Stages(runs) ==> Stays(runs, path)) <==> Snapshotted(path) && PlainName(path)
  {
    hide PathName, PlainName, Snapshotted, Next, IsByproduct;
    if Snapshotted(path) && PlainName(path) {
      forall runs: seq<Run> | Stages(runs) ensures Stays(runs, path) {
        CheckConfigurationStays(runs, path);
      }
    } else if !Snapshotted(path) {
      RenamedUnnoticed(path);
    } else {
      AddedUnnoticed(path);
      var runs: seq<Run> :| Stages(runs) && !NeverWritten(runs, path);
      assert !Stays(runs, path);
    }
  }
}
