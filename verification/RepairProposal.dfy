/** The scope half of a repair, and the patch the two halves make together. */
module RepairProposal {
  import opened Options
  import opened PyText
  import opened PathNames
  import opened Verification
  import opened CommandText
  import opened ContractRepair

  /** `path.split("/", 1)[0]`. */
  function FirstSegment(path: string): (first: string)
    ensures first <= path && '/' !in first
    ensures first == path || path[|first|] == '/'
  {
    if path == "" || path[0] == '/' then "" else [path[0]] + FirstSegment(path[1..])
  }

  /** Every authoring strategy may write exactly the check paths. */
  predicate AuthorMayWrite(path: string, strategy: Strategy) {
    IsCheckPath(path)
  }

  function TestDirectories(tracked: seq<string>, strategy: Strategy): seq<string> {
    if tracked == [] then []
    else
      var path := tracked[0];
      (if '/' in path && AuthorMayWrite(FirstSegment(path), strategy) then [FirstSegment(path) + "/"] else []) +
      TestDirectories(tracked[1..], strategy)
  }

  function RepairScope(c: Contract, tracked: seq<string>): Option<seq<string>> {
    if exists entry <- c.allowedScope :: AuthorMayWrite(entry, c.strategy) then None
    else
      var candidates := SortedSet(TestDirectories(tracked, c.strategy));
      if candidates == [] then None else Some(c.allowedScope + [candidates[0]])
  }

  // A non-invalidating patch; None leaves the field as it is.
  datatype Patch = Patch(allowedScope: Option<seq<string>>, commands: Option<seq<string>>)

  const CONTRACT_SHAPED: seq<string> := [
    "authoritative verification command failed",
    "test author modified production paths",
    "test author produced no executable checks",
    "path outside allowed scope"
  ]

  predicate PointsAtContract(reasons: seq<string>) {
    exists reason <- reasons :: exists prefix <- CONTRACT_SHAPED :: prefix <= Strip(reason, IsSpace)
  }

  method ProposeRepair(c: Contract, reasons: seq<string>, tracked: seq<string>, near: Near)
    returns (patch: Option<Patch>)
    ensures patch == Proposal(c, reasons, tracked, near)
  {
    if tracked == [] {
      return None;
    }
    if !PointsAtContract(reasons) {
      return None;
    }
    var commands, notes := RepairCommands(tracked, near, c.commands);
    var scope := RepairScope(c, tracked);
    if commands.None? && scope.None? {
      return None;
    }
    patch := Some(Patch(scope, commands));
  }

  function Proposal(c: Contract, reasons: seq<string>, tracked: seq<string>, near: Near): Option<Patch> {
    if tracked == [] || !PointsAtContract(reasons) then None
    else
      var commands :=
        if AllNotes(tracked, near, c.commands) == [] then None else Some(RepairAll(tracked, near, c.commands));
      var scope := RepairScope(c, tracked);
      if commands.None? && scope.None? then None else Some(Patch(scope, commands))
  }

  /** `amend_contract`: the patched fields replaced, the rest kept. */
  function Amend(c: Contract, patch: Patch): Contract {
    c.(allowedScope := if patch.allowedScope.Some? then patch.allowedScope.value else c.allowedScope,
       commands := if patch.commands.Some? then patch.commands.value else c.commands)
  }

  // -------------------------------------------------------- the new entry

  lemma {:induction false} DirectoriesAreTests(tracked: seq<string>, strategy: Strategy, entry: string)
    requires entry in TestDirectories(tracked, strategy)
    ensures exists path <- tracked :: '/' in path && IsCheckPath(FirstSegment(path)) && entry == FirstSegment(path) + "/"
  {
    hide IsCheckPath;
    var path := tracked[0];
    if '/' in path && AuthorMayWrite(FirstSegment(path), strategy) && entry == FirstSegment(path) + "/" {
      assert path in tracked;
    } else {
      assert entry in TestDirectories(tracked[1..], strategy);
      DirectoriesAreTests(tracked[1..], strategy, entry);
      var p :| p in tracked[1..] && '/' in p && IsCheckPath(FirstSegment(p)) && entry == FirstSegment(p) + "/";
      assert p in tracked;
    }
  }

  /** A tracked directory of check paths that the authoring stage may write. */
  predicate IsCandidate(tracked: seq<string>, entry: string) {
    exists path <- tracked :: '/' in path && IsCheckPath(FirstSegment(path)) && entry == FirstSegment(path) + "/"
  }

  lemma {:induction false} CandidatesAre(tracked: seq<string>, strategy: Strategy, entry: string)
    ensures entry in TestDirectories(tracked, strategy) <==> IsCandidate(tracked, entry)
  {
    hide IsCheckPath, FirstSegment;
    if tracked != [] {
      CandidatesAre(tracked[1..], strategy, entry);
      assert tracked == [tracked[0]] + tracked[1..];
    }
  }

  /**
   A scope is proposed whenever the contract lets no check path be written and
   the repository has a candidate: the least one, behind the entries that were there.
   */
  lemma RepairScopeIff(c: Contract, tracked: seq<string>)
    ensures RepairScope(c, tracked).Some? <==>
      && (forall entry <- c.allowedScope :: !IsCheckPath(entry))
      && exists entry :: IsCandidate(tracked, entry)
    ensures RepairScope(c, tracked).Some? ==>
      exists least :: RepairScope(c, tracked) == Some(c.allowedScope + [least]) && IsCandidate(tracked, least)
        && forall other :: IsCandidate(tracked, other) ==> other == least || Before(least, other)
  {
    hide IsCheckPath, IsCandidate, TestDirectories, Before;
    var directories := TestDirectories(tracked, c.strategy);
    var sorted := SortedSet(directories);
    SortedSetAscends(directories);
    forall entry ensures entry in sorted <==> IsCandidate(tracked, entry) {
      SortedSetMembers(directories, entry);
      CandidatesAre(tracked, c.strategy, entry);
    }
    if sorted != [] {
      assert IsCandidate(tracked, sorted[0]);
    }
  }

  /** The stripped reason opens with one of the texts that point at the contract. */
  predicate OpensAsContract(reason: string) {
    var text := Strip(reason, IsSpace);
    || "authoritative verification command failed" <= text
    || "test author modified production paths" <= text
    || "test author produced no executable checks" <= text
    || "path outside allowed scope" <= text
  }

  /**
   Something is proposed exactly for a tracked tree and a failure one of whose
   reasons points at the contract, when a command or the scope can be repaired.
   */
  lemma ProposesIff(c: Contract, reasons: seq<string>, tracked: seq<string>, near: Near)
    ensures Proposal(c, reasons, tracked, near).Some? <==>
      && tracked != []
      && (exists reason <- reasons :: OpensAsContract(reason))
      && (AllNotes(tracked, near, c.commands) != [] || RepairScope(c, tracked).Some?)
  {
    hide RepairScope, AllNotes, RepairAll, Strip;
    forall reason <- reasons
      ensures OpensAsContract(reason) <==> exists prefix <- CONTRACT_SHAPED :: prefix <= Strip(reason, IsSpace)
    {
      ContractShaped(Strip(reason, IsSpace));
    }
  }

  lemma ContractShaped(text: string)
    ensures (exists prefix <- CONTRACT_SHAPED :: prefix <= text) <==>
      || "authoritative verification command failed" <= text
      || "test author modified production paths" <= text
      || "test author produced no executable checks" <= text
      || "path outside allowed scope" <= text
  {
    var p := CONTRACT_SHAPED;
    assert p[0] in p && p[1] in p && p[2] in p && p[3] in p;
  }

  /** The repair only appends: one entry, a directory of the repository the authoring stage may write. */
  lemma NewEntryIsWritable(c: Contract, tracked: seq<string>)
    requires RepairScope(c, tracked).Some?
    ensures var widened := RepairScope(c, tracked).value;
      && |widened| == |c.allowedScope| + 1 && c.allowedScope <= widened
      && AuthorMayWrite(widened[|c.allowedScope|], c.strategy)
      && exists path <- tracked :: '/' in path && widened[|c.allowedScope|] == FirstSegment(path) + "/"
  {
    hide IsCheckPath;
    var directories := TestDirectories(tracked, c.strategy);
    var entry := SortedSet(directories)[0];
    SortedSetMembers(directories, entry);
    DirectoriesAreTests(tracked, c.strategy, entry);
    var path :| path in tracked && '/' in path && IsCheckPath(FirstSegment(path)) && entry == FirstSegment(path) + "/";
    CheckPathSlash(FirstSegment(path));
  }

  /** After one scope repair a second proposes none. */
  lemma ScopeRepairFixpoint(c: Contract, tracked: seq<string>)
    requires RepairScope(c, tracked).Some?
    ensures RepairScope(c.(allowedScope := RepairScope(c, tracked).value), tracked).None?
  {
    hide IsCheckPath;
    NewEntryIsWritable(c, tracked);
    var widened := RepairScope(c, tracked).value;
    assert widened[|c.allowedScope|] in widened;
  }

  // ------------------------------------------------------ widening, exactly

  /** Every scope refusal under `after` was already one under `before`, for every change list and exemption. */
  ghost predicate OnlyWidens(before: Contract, after: Contract) {
    forall changed: seq<string>, exempt: map<string, string> ::
      forall r <- ScopeReasons(after, ChangedPaths(changed), exempt) ::
        r in ScopeReasons(before, ChangedPaths(changed), exempt)
  }

  lemma WiderReason(before: Contract, after: Contract, path: string, exempt: map<string, string>)
    requires after.forbiddenScope == before.forbiddenScope
    requires before.allowedScope != [] && before.allowedScope <= after.allowedScope
    ensures forall r <- ScopeReason(after, path, exempt) :: r in ScopeReason(before, path, exempt)
  {
    hide Matches;
    if InScope(path, before.allowedScope) {
      var scope :| scope in before.allowedScope && Matches(path, scope);
      assert scope in after.allowedScope;
    }
  }

  lemma {:induction false} WiderReasons(
      before: Contract, after: Contract, paths: seq<string>, exempt: map<string, string>)
    requires after.forbiddenScope == before.forbiddenScope
    requires before.allowedScope != [] && before.allowedScope <= after.allowedScope
    ensures forall r <- ScopeReasons(after, paths, exempt) :: r in ScopeReasons(before, paths, exempt)
  {
    hide ScopeReason;
    if paths != [] {
      WiderReasons(before, after, paths[..|paths| - 1], exempt);
      WiderReason(before, after, paths[|paths| - 1], exempt);
    }
  }

  lemma PlainChange(c: char)
    requires c != '/' && c != '.'
    ensures ChangedPaths([[c]]) == [[c]]
  {
    forall k | 0 <= k <= 1 ensures !("/" <= [c][k..]) {
    }
    SplitWhole([c], "/");
    assert Components([[c]]) == [[c]] by {
      assert [[c]][..0] == [];
    }
    assert AsPosix([c]) == [c];
    assert seq(1, i requires 0 <= i < 1 => AsPosix([[c]][i])) == [[c]];
    assert [[c]][1..] == [] && SortedSet([[c]]) == Insert([c], []);
  }

  /** Declaring one check directory where nothing was declared refuses paths that were free before. */
  lemma FromEmptyNarrows(before: Contract, after: Contract, entry: string, c: char)
    requires before.allowedScope == [] && after == before.(allowedScope := [entry])
    requires c != '/' && c != '.' && !Matches([c], entry)
    ensures !OnlyWidens(before, after)
  {
    PlainChange(c);
    var none: map<string, string> := map[];
    var path: string := [c];
    assert [path][..0] == [];
    assert !InScope(path, [entry]);
    assert OUTSIDE + path in ScopeReason(after, path, none);
    assert ScopeReasons(after, [path], none) == [] + ScopeReason(after, path, none);
    assert ScopeReasons(before, [path], none) == [] + ScopeReason(before, path, none);
    assert (OUTSIDE + path)[0] == 'p' && (FORBIDDEN + path)[0] == 'f';
    assert OUTSIDE + path in ScopeReasons(after, ChangedPaths([path]), none);
    assert OUTSIDE + path !in ScopeReasons(before, ChangedPaths([path]), none);
  }

  /**
   A scope repair only widens the gate exactly when the contract declared some
   allowed scope: an empty list means unrestricted, and any entry narrows it.
   */
  lemma ScopeRepairWidensIff(c: Contract, tracked: seq<string>)
    requires RepairScope(c, tracked).Some?
    ensures OnlyWidens(c, c.(allowedScope := RepairScope(c, tracked).value)) <==> c.allowedScope != []
  {
    hide IsCheckPath, Matches;
    var widened := RepairScope(c, tracked).value;
    var after := c.(allowedScope := widened);
    NewEntryIsWritable(c, tracked);
    if c.allowedScope != [] {
      forall changed: seq<string>, exempt: map<string, string>
        ensures forall r <- ScopeReasons(after, ChangedPaths(changed), exempt) ::
          r in ScopeReasons(c, ChangedPaths(changed), exempt)
      {
        WiderReasons(c, after, ChangedPaths(changed), exempt);
      }
    } else {
      var entry := widened[0];
      assert widened == [entry];
      CheckIsNotWholeTree(entry);
      NeverBoth(entry);
      if !Matches("x", entry) {
        FromEmptyNarrows(c, after, entry, 'x');
      } else {
        FromEmptyNarrows(c, after, entry, 'y');
      }
    }
  }

  /** Applied once, a proposal leaves nothing to propose exactly when no match used would itself be repaired. */
  lemma ProposalFixpointIff(c: Contract, reasons: seq<string>, tracked: seq<string>, near: Near)
    requires Regular(tracked, near, c.commands)
    requires Proposal(c, reasons, tracked, near).Some?
    ensures Proposal(Amend(c, Proposal(c, reasons, tracked, near).value), reasons, tracked, near).None?
      <==> AllSettled(tracked, near, c.commands)
  {
    hide RepairAll, AllNotes, PointsAtContract, Regular, AllSettled, IsCheckPath;
    var patch := Proposal(c, reasons, tracked, near).value;
    var after := Amend(c, patch);
    RepairFixpointIff(tracked, near, c.commands);
    if AllNotes(tracked, near, c.commands) == [] {
      SilentMeansSettled(tracked, near, c.commands);
    }
    if RepairScope(c, tracked).Some? {
      ScopeRepairFixpoint(c, tracked);
    }
    assert RepairScope(after, tracked).None?;
  }

  /** With nothing to note there is no match to judge. */
  lemma {:induction false} SilentMeansSettled(tracked: seq<string>, near: Near, commands: seq<string>)
    requires AllNotes(tracked, near, commands) == []
    ensures AllSettled(tracked, near, commands)
  {
    hide Parse, Notes, Fix;
    if commands != [] {
      var front, last := commands[..|commands| - 1], commands[|commands| - 1];
      assert commands == front + [last];
      SilentMeansSettled(tracked, near, front);
      QuietIff(tracked, near, Parse(last).words);
    }
  }

  /** In particular it does when the matches are tracked paths with no dot or slash at either end. */
  lemma ProposalFixpoint(c: Contract, reasons: seq<string>, tracked: seq<string>, near: Near)
    requires Regular(tracked, near, c.commands) && TidyMatches(tracked, near, c.commands)
    requires Proposal(c, reasons, tracked, near).Some?
    ensures Proposal(Amend(c, Proposal(c, reasons, tracked, near).value), reasons, tracked, near).None?
  {
    hide Proposal, Regular, TidyMatches, AllSettled;
    TidySettles(tracked, near, c.commands);
    ProposalFixpointIff(c, reasons, tracked, near);
  }
}
