/** The verification gate: what a candidate tree is judged on, and in which words it is refused. */
module Verification {
  import opened Options
  import opened PyText
  import opened PathNames

  // A file's content hash, and its text when it can be read.
  datatype File = File(hash: string, text: Option<string>)

  type Tree = map<string, File>

  // A dictionary from path to hash, with the order it iterates in.
  datatype Pinned = Pinned(order: seq<string>, hash: map<string, string>) {
    predicate Valid() {
      (forall path <- order :: path in hash) && (forall path <- hash :: path in order)
    }
  }

  datatype Strategy = Tdd | Characterization | ExecutableCheck

  datatype Contract = Contract(
    id: string, revision: int, allowedScope: seq<string>, forbiddenScope: seq<string>,
    commands: seq<string>, strategy: Strategy)

  datatype Bundle = Bundle(taskId: string, taskRevision: int, pinned: Pinned, frozen: bool)

  datatype Verdict = Verdict(accepted: bool, reasons: seq<string>)

  const CONFIG_NAMES := {
    "pytest.ini", "pyproject.toml", "tox.ini", "package.json", "vitest.config.ts", "jest.config.js"
  }

  const BYPASS_MARKERS := [
    "pytest.skip(", "@pytest.mark.skip", "@pytest.mark.xfail", "unittest.skip", "test.skip(",
    "test.only(", ".skip("
  ]

  const MISSING := "protected test missing or renamed: "
  const CHANGED := "protected test changed: "
  const BYPASSED := "test bypass marker present: "
  const CONFIG_CHANGED := "verification configuration changed: "
  const FORBIDDEN := "forbidden path changed: "
  const OUTSIDE := "path outside allowed scope: "
  const WRONG_BUNDLE := "test bundle does not match task revision"

  predicate Validates(b: Bundle, id: string, revision: int) {
    b.frozen && b.taskId == id && b.taskRevision == revision
  }

  // ------------------------------------------------------ reasons, per path

  predicate HasBypass(text: string) {
    exists marker <- BYPASS_MARKERS :: Contains(text, marker)
  }

  function ProtectedReason(tree: Tree, path: string, expected: string): seq<string> {
    if path !in tree then [MISSING + path]
    else if tree[path].hash == expected then []
    else
      [CHANGED + path] +
      (if tree[path].text.Some? && HasBypass(tree[path].text.value) then [BYPASSED + path] else [])
  }

  function ProtectedReasons(tree: Tree, pinned: Pinned, order: seq<string>): seq<string>
    requires forall path <- order :: path in pinned.hash
  {
    if order == [] then []
    else
      var last := order[|order| - 1];
      ProtectedReasons(tree, pinned, order[..|order| - 1]) + ProtectedReason(tree, last, pinned.hash[last])
  }

  function ConfigReason(path: string, exempt: map<string, string>): seq<string> {
    if path !in exempt && PathName(path) in CONFIG_NAMES then [CONFIG_CHANGED + path] else []
  }

  function ConfigReasons(paths: seq<string>, exempt: map<string, string>): seq<string> {
    if paths == [] then []
    else ConfigReasons(paths[..|paths| - 1], exempt) + ConfigReason(paths[|paths| - 1], exempt)
  }

  predicate InScope(path: string, scopes: seq<string>) {
    exists scope <- scopes :: Matches(path, scope)
  }

  function ScopeReason(c: Contract, path: string, exempt: map<string, string>): seq<string> {
    if path in exempt then []
    else
      (if InScope(path, c.forbiddenScope) then [FORBIDDEN + path] else []) +
      (if c.allowedScope != [] && !InScope(path, c.allowedScope) then [OUTSIDE + path] else [])
  }

  function ScopeReasons(c: Contract, paths: seq<string>, exempt: map<string, string>): seq<string> {
    if paths == [] then []
    else ScopeReasons(c, paths[..|paths| - 1], exempt) + ScopeReason(c, paths[|paths| - 1], exempt)
  }

  /** `sorted({Path(path).as_posix() for path in changed})`. */
  function ChangedPaths(changed: seq<string>): seq<string> {
    SortedSet(seq(|changed|, i requires 0 <= i < |changed| => AsPosix(changed[i])))
  }

  // ------------------------------------------------------------ the checks

  method CheckProtected(tree: Tree, pinned: Pinned) returns (reasons: seq<string>)
    requires pinned.Valid()
    ensures reasons == ProtectedReasons(tree, pinned, pinned.order)
  {
    hide HasBypass, MISSING, CHANGED, BYPASSED;
    reasons := [];
    var i := 0;
    while i < |pinned.order|
      invariant 0 <= i <= |pinned.order|
      invariant reasons == ProtectedReasons(tree, pinned, pinned.order[..i])
    {
      var path := pinned.order[i];
      ghost var before := reasons;
      if path !in tree {
        reasons := reasons + [MISSING + path];
      } else if tree[path].hash != pinned.hash[path] {
        reasons := reasons + [CHANGED + path];
        if tree[path].text.Some? && HasBypass(tree[path].text.value) {
          reasons := reasons + [BYPASSED + path];
        }
      }
      assert reasons == before + ProtectedReason(tree, path, pinned.hash[path]);
      assert pinned.order[..i + 1][..i] == pinned.order[..i];
      i := i + 1;
    }
    assert pinned.order[..i] == pinned.order;
  }

  method CheckConfigUntouched(changed: seq<string>, exempt: map<string, string>) returns (reasons: seq<string>)
    ensures reasons == ConfigReasons(ChangedPaths(changed), exempt)
  {
    hide ChangedPaths, PathName;
    reasons := [];
    var paths := ChangedPaths(changed);
    var i := 0;
    while i < |paths|
      invariant 0 <= i <= |paths|
      invariant reasons == ConfigReasons(paths[..i], exempt)
    {
      ghost var before := reasons;
      if paths[i] !in exempt {
        if PathName(paths[i]) in CONFIG_NAMES {
          reasons := reasons + [CONFIG_CHANGED + paths[i]];
        }
      }
      assert reasons == before + ConfigReason(paths[i], exempt);
      assert paths[..i + 1][..i] == paths[..i];
      i := i + 1;
    }
    assert paths[..i] == paths;
  }

  lemma ScopeReasonsNone(c: Contract, exempt: map<string, string>)
    ensures ScopeReasons(c, [], exempt) == []
  {
  }

  lemma ScopeReasonsNext(c: Contract, paths: seq<string>, i: nat, exempt: map<string, string>)
    requires i < |paths|
    ensures ScopeReasons(c, paths[..i + 1], exempt)
         == ScopeReasons(c, paths[..i], exempt) + ScopeReason(c, paths[i], exempt)
  {
    assert paths[..i + 1][..i] == paths[..i];
  }

  /** `any(_matches_scope(path, scope) for scope in scopes)`. */
  method AnyMatches(path: string, scopes: seq<string>) returns (found: bool)
    ensures found == InScope(path, scopes)
  {
    for i := 0 to |scopes|
      invariant forall j :: 0 <= j < i ==> !Matches(path, scopes[j])
    {
      var matched := MatchesScope(path, scopes[i]);
      if matched {
        return true;
      }
    }
    found := false;
  }

  method CheckDeclaredScope(c: Contract, changed: seq<string>, exempt: map<string, string>)
    returns (reasons: seq<string>)
    ensures reasons == ScopeReasons(c, ChangedPaths(changed), exempt)
  {
    hide ChangedPaths, InScope, FORBIDDEN, OUTSIDE, ScopeReasons;
    ScopeReasonsNone(c, exempt);
    reasons := [];
    var paths := ChangedPaths(changed);
    var i := 0;
    while i < |paths|
      invariant 0 <= i <= |paths|
      invariant reasons == ScopeReasons(c, paths[..i], exempt)
    {
      ScopeReasonsNext(c, paths, i, exempt);
      if paths[i] !in exempt {
        var forbidden := AnyMatches(paths[i], c.forbiddenScope);
        if forbidden {
          reasons := reasons + [FORBIDDEN + paths[i]];
        }
        var allowed := AnyMatches(paths[i], c.allowedScope);
        if c.allowedScope != [] && !allowed {
          reasons := reasons + [OUTSIDE + paths[i]];
        }
      }
      i := i + 1;
    }
    assert paths[..i] == paths;
  }

  /** `tuple(dict.fromkeys(reasons))`. */
  function Distinct(reasons: seq<string>): seq<string> {
    if reasons == [] then []
    else
      var before := Distinct(reasons[..|reasons| - 1]);
      var last := reasons[|reasons| - 1];
      if last in before then before else before + [last]
  }

  function Judge(reasons: seq<string>): Verdict {
    Verdict(reasons == [], Distinct(reasons))
  }

  function CandidateReasons(tree: Tree, c: Contract, b: Bundle, changed: seq<string>): seq<string>
    requires b.pinned.Valid()
  {
    (if Validates(b, c.id, c.revision) then [] else [WRONG_BUNDLE]) +
    ProtectedReasons(tree, b.pinned, b.pinned.order) +
    ConfigReasons(ChangedPaths(changed), b.pinned.hash) +
    ScopeReasons(c, ChangedPaths(changed), b.pinned.hash)
  }

  function AuthoringReasons(tree: Tree, existing: Pinned, changed: seq<string>): seq<string>
    requires existing.Valid()
  {
    ProtectedReasons(tree, existing, existing.order) + ConfigReasons(ChangedPaths(changed), existing.hash)
  }

  method ValidateCandidate(tree: Tree, c: Contract, b: Bundle, changed: seq<string>) returns (verdict: Verdict)
    requires b.pinned.Valid()
    ensures verdict == Judge(CandidateReasons(tree, c, b, changed))
    ensures verdict.accepted <==> Acceptable(tree, c, b, changed)
  {
    var identity := if Validates(b, c.id, c.revision) then [] else [WRONG_BUNDLE];
    var pins := CheckProtected(tree, b.pinned);
    var config := CheckConfigUntouched(changed, b.pinned.hash);
    var scope := CheckDeclaredScope(c, changed, b.pinned.hash);
    verdict := Judge(identity + pins + config + scope);
    AcceptedIff(tree, c, b, changed);
  }

  method ValidateAuthoring(tree: Tree, existing: Pinned, changed: seq<string>) returns (verdict: Verdict)
    requires existing.Valid()
    ensures verdict == Judge(AuthoringReasons(tree, existing, changed))
    ensures verdict.accepted <==> PinsIntact(tree, existing) && ConfigUntouched(changed, existing.hash)
  {
    var pins := CheckProtected(tree, existing);
    var config := CheckConfigUntouched(changed, existing.hash);
    verdict := Judge(pins + config);
    AuthoringAcceptedIff(tree, existing, changed);
  }

  // --------------------------------------------------- what acceptance means

  /** Every pinned file is there with its pinned hash. */
  predicate PinsIntact(tree: Tree, pinned: Pinned) {
    forall path <- pinned.hash :: path in tree && tree[path].hash == pinned.hash[path]
  }

  predicate Touched(changed: seq<string>, path: string) {
    exists p <- changed :: AsPosix(p) == path
  }

  /** No changed path outside the pinned ones has a configuration name. */
  ghost predicate ConfigUntouched(changed: seq<string>, exempt: map<string, string>) {
    forall path :: Touched(changed, path) && path !in exempt ==> PathName(path) !in CONFIG_NAMES
  }

  /** In no forbidden scope, and in some allowed one if any is declared. */
  predicate ScopeAllows(c: Contract, path: string) {
    !InScope(path, c.forbiddenScope) && (c.allowedScope == [] || InScope(path, c.allowedScope))
  }

  ghost predicate InDeclaredScope(c: Contract, changed: seq<string>, exempt: map<string, string>) {
    forall path :: Touched(changed, path) && path !in exempt ==> ScopeAllows(c, path)
  }

  ghost predicate Acceptable(tree: Tree, c: Contract, b: Bundle, changed: seq<string>) {
    && Validates(b, c.id, c.revision)
    && PinsIntact(tree, b.pinned)
    && ConfigUntouched(changed, b.pinned.hash)
    && InDeclaredScope(c, changed, b.pinned.hash)
  }

  lemma {:induction false} ProtectedEmptyIff(tree: Tree, pinned: Pinned, order: seq<string>)
    requires forall path <- order :: path in pinned.hash
    ensures ProtectedReasons(tree, pinned, order) == []
      <==> forall path <- order :: path in tree && tree[path].hash == pinned.hash[path]
  {
    if order != [] {
      var front := order[..|order| - 1];
      ProtectedEmptyIff(tree, pinned, front);
      assert order == front + [order[|order| - 1]];
    }
  }

  lemma {:induction false} ConfigEmptyIff(paths: seq<string>, exempt: map<string, string>)
    ensures ConfigReasons(paths, exempt) == []
      <==> forall path <- paths :: path in exempt || PathName(path) !in CONFIG_NAMES
  {
    if paths != [] {
      ConfigEmptyIff(paths[..|paths| - 1], exempt);
      assert paths == paths[..|paths| - 1] + [paths[|paths| - 1]];
    }
  }

  lemma ScopeReasonIff(c: Contract, path: string, exempt: map<string, string>)
    ensures ScopeReason(c, path, exempt) == [] <==> path in exempt || ScopeAllows(c, path)
  {
  }

  lemma {:induction false} ScopeEmptyIff(c: Contract, paths: seq<string>, exempt: map<string, string>)
    ensures ScopeReasons(c, paths, exempt) == []
      <==> forall path <- paths :: path in exempt || ScopeAllows(c, path)
  {
    hide ScopeReasons, ScopeReason, ScopeAllows;
    if paths == [] {
      ScopeReasonsNone(c, exempt);
    } else {
      var front, last := paths[..|paths| - 1], paths[|paths| - 1];
      ScopeEmptyIff(c, front, exempt);
      ScopeReasonIff(c, last, exempt);
      ScopeReasonsNext(c, paths, |paths| - 1, exempt);
      assert paths[..|paths|] == paths;
      assert paths == front + [last];
    }
  }

  lemma ChangedPathsAre(changed: seq<string>, path: string)
    ensures path in ChangedPaths(changed) <==> Touched(changed, path)
  {
    var posix := seq(|changed|, i requires 0 <= i < |changed| => AsPosix(changed[i]));
    SortedSetMembers(posix, path);
    if path in posix {
      var i :| 0 <= i < |posix| && posix[i] == path;
      assert changed[i] in changed;
    }
    if Touched(changed, path) {
      var p :| p in changed && AsPosix(p) == path;
      var i :| 0 <= i < |changed| && changed[i] == p;
      assert posix[i] == path;
    }
  }

  lemma PinsIff(tree: Tree, pinned: Pinned)
    requires pinned.Valid()
    ensures ProtectedReasons(tree, pinned, pinned.order) == [] <==> PinsIntact(tree, pinned)
  {
    ProtectedEmptyIff(tree, pinned, pinned.order);
  }

  lemma ConfigIff(changed: seq<string>, exempt: map<string, string>)
    ensures ConfigReasons(ChangedPaths(changed), exempt) == [] <==> ConfigUntouched(changed, exempt)
  {
    ConfigEmptyIff(ChangedPaths(changed), exempt);
    forall path ensures path in ChangedPaths(changed) <==> Touched(changed, path) {
      ChangedPathsAre(changed, path);
    }
  }

  lemma ScopeIff(c: Contract, changed: seq<string>, exempt: map<string, string>)
    ensures ScopeReasons(c, ChangedPaths(changed), exempt) == [] <==> InDeclaredScope(c, changed, exempt)
  {
    ScopeEmptyIff(c, ChangedPaths(changed), exempt);
    forall path ensures path in ChangedPaths(changed) <==> Touched(changed, path) {
      ChangedPathsAre(changed, path);
    }
  }

  /** The implementation gate accepts exactly the acceptable candidates. */
  lemma AcceptedIff(tree: Tree, c: Contract, b: Bundle, changed: seq<string>)
    requires b.pinned.Valid()
    ensures Judge(CandidateReasons(tree, c, b, changed)).accepted <==> Acceptable(tree, c, b, changed)
  {
    PinsIff(tree, b.pinned);
    ConfigIff(changed, b.pinned.hash);
    ScopeIff(c, changed, b.pinned.hash);
  }

  lemma AuthoringAcceptedIff(tree: Tree, existing: Pinned, changed: seq<string>)
    requires existing.Valid()
    ensures Judge(AuthoringReasons(tree, existing, changed)).accepted
      <==> PinsIntact(tree, existing) && ConfigUntouched(changed, existing.hash)
  {
    PinsIff(tree, existing);
    ConfigIff(changed, existing.hash);
  }

  /** The verdict, its reasons and their order do not depend on how the change list is ordered or repeated. */
  lemma VerdictIgnoresListing(tree: Tree, c: Contract, b: Bundle, changed: seq<string>, listed: seq<string>)
    requires b.pinned.Valid() && forall path :: Touched(changed, path) <==> Touched(listed, path)
    ensures CandidateReasons(tree, c, b, changed) == CandidateReasons(tree, c, b, listed)
  {
    var x := seq(|changed|, i requires 0 <= i < |changed| => AsPosix(changed[i]));
    var y := seq(|listed|, i requires 0 <= i < |listed| => AsPosix(listed[i]));
    forall path ensures path in x <==> path in y {
      ChangedPathsAre(changed, path);
      ChangedPathsAre(listed, path);
      SortedSetMembers(x, path);
      SortedSetMembers(y, path);
    }
    SortedSetCanonical(x, y);
  }

  lemma {:induction false} DistinctKeeps(reasons: seq<string>)
    ensures forall r :: r in Distinct(reasons) <==> r in reasons
    ensures forall i, j :: 0 <= i < j < |Distinct(reasons)| ==> Distinct(reasons)[i] != Distinct(reasons)[j]
    ensures reasons != [] ==> Distinct(reasons) != [] && Distinct(reasons)[0] == reasons[0]
  {
    if reasons != [] {
      DistinctKeeps(reasons[..|reasons| - 1]);
      assert reasons == reasons[..|reasons| - 1] + [reasons[|reasons| - 1]];
    }
  }
}
