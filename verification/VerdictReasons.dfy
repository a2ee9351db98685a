/** Which reason the gate gives, and for which path: each text is in a verdict exactly when its fault is in the tree. */
module VerdictReasons {
  import opened PyText
  import opened PathNames
  import opened Verification

  // ------------------------------------------------- texts are not confused

  lemma Clash(a: string, b: string, k: nat, x: string, y: string)
    requires k < |a| && k < |b| && a[k] != b[k]
    ensures a + x != b + y
  {
    assert (a + x)[k] == a[k] && (b + y)[k] == b[k];
  }

  lemma SameText(a: string, x: string, y: string)
    ensures a + x == a + y <==> x == y
  {
    assert (a + x)[|a|..] == x && (a + y)[|a|..] == y;
  }

  lemma ProtectedTextsDiffer(x: string, y: string)
    ensures MISSING + x != CHANGED + y && MISSING + x != BYPASSED + y && CHANGED + x != BYPASSED + y
  {
    Clash(MISSING, CHANGED, 15, x, y);
    Clash(MISSING, BYPASSED, 0, x, y);
    Clash(CHANGED, BYPASSED, 0, x, y);
  }

  lemma ConfigTextDiffers(x: string, y: string)
    ensures CONFIG_CHANGED + x != MISSING + y && CONFIG_CHANGED + x != CHANGED + y && CONFIG_CHANGED + x != BYPASSED + y
  {
    Clash(CONFIG_CHANGED, MISSING, 0, x, y);
    Clash(CONFIG_CHANGED, CHANGED, 0, x, y);
    Clash(CONFIG_CHANGED, BYPASSED, 0, x, y);
  }

  lemma ForbiddenTextDiffers(x: string, y: string)
    ensures FORBIDDEN + x != MISSING + y && FORBIDDEN + x != CHANGED + y && FORBIDDEN + x != BYPASSED + y
    ensures FORBIDDEN + x != CONFIG_CHANGED + y && FORBIDDEN + x != OUTSIDE + y
  {
    Clash(FORBIDDEN, MISSING, 0, x, y);
    Clash(FORBIDDEN, CHANGED, 0, x, y);
    Clash(FORBIDDEN, BYPASSED, 0, x, y);
    Clash(FORBIDDEN, CONFIG_CHANGED, 0, x, y);
    Clash(FORBIDDEN, OUTSIDE, 0, x, y);
  }

  lemma OutsideTextDiffers(x: string, y: string)
    ensures OUTSIDE + x != MISSING + y && OUTSIDE + x != CHANGED + y && OUTSIDE + x != BYPASSED + y
    ensures OUTSIDE + x != CONFIG_CHANGED + y
  {
    Clash(OUTSIDE, MISSING, 1, x, y);
    Clash(OUTSIDE, CHANGED, 1, x, y);
    Clash(OUTSIDE, BYPASSED, 0, x, y);
    Clash(OUTSIDE, CONFIG_CHANGED, 0, x, y);
  }

  lemma BundleTextDiffers(y: string)
    ensures WRONG_BUNDLE != MISSING + y && WRONG_BUNDLE != CHANGED + y && WRONG_BUNDLE != BYPASSED + y
    ensures WRONG_BUNDLE != CONFIG_CHANGED + y && WRONG_BUNDLE != FORBIDDEN + y && WRONG_BUNDLE != OUTSIDE + y
  {
    Clash(WRONG_BUNDLE, MISSING, 0, "", y);
    Clash(WRONG_BUNDLE, CHANGED, 0, "", y);
    Clash(WRONG_BUNDLE, BYPASSED, 6, "", y);
    Clash(WRONG_BUNDLE, CONFIG_CHANGED, 0, "", y);
    Clash(WRONG_BUNDLE, FORBIDDEN, 0, "", y);
    Clash(WRONG_BUNDLE, OUTSIDE, 0, "", y);
    assert WRONG_BUNDLE + "" == WRONG_BUNDLE;
  }

  // ------------------------------------------------------- where they come from

  lemma {:induction false} ProtectedFrom(tree: Tree, pinned: Pinned, order: seq<string>, r: string)
    requires forall path <- order :: path in pinned.hash
    ensures r in ProtectedReasons(tree, pinned, order)
      <==> exists path <- order :: r in ProtectedReason(tree, path, pinned.hash[path])
    decreases |order|
  {
    hide ProtectedReason;
    if order != [] {
      var front, last := order[..|order| - 1], order[|order| - 1];
      assert order == front + [last];
      ProtectedFrom(tree, pinned, front, r);
    }
  }

  lemma {:induction false} ConfigFrom(paths: seq<string>, exempt: map<string, string>, r: string)
    ensures r in ConfigReasons(paths, exempt) <==> exists path <- paths :: r in ConfigReason(path, exempt)
    decreases |paths|
  {
    hide ConfigReason;
    if paths != [] {
      var front, last := paths[..|paths| - 1], paths[|paths| - 1];
      assert paths == front + [last];
      ConfigFrom(front, exempt, r);
    }
  }

  lemma {:induction false} ScopeFrom(c: Contract, paths: seq<string>, exempt: map<string, string>, r: string)
    ensures r in ScopeReasons(c, paths, exempt) <==> exists path <- paths :: r in ScopeReason(c, path, exempt)
    decreases |paths|
  {
    hide ScopeReason;
    if paths != [] {
      var front, last := paths[..|paths| - 1], paths[|paths| - 1];
      assert paths == front + [last];
      ScopeFrom(c, front, exempt, r);
    }
  }

  // ------------------------------------------------------------ group by group

  /** The pinned file is there with another hash. */
  predicate Altered(tree: Tree, pinned: Pinned, p: string) {
    p in pinned.hash && p in tree && tree[p].hash != pinned.hash[p]
  }

  lemma OneProtected(tree: Tree, path: string, expected: string, p: string)
    ensures MISSING + p in ProtectedReason(tree, path, expected) <==> path == p && p !in tree
    ensures CHANGED + p in ProtectedReason(tree, path, expected) <==> path == p && p in tree && tree[p].hash != expected
    ensures BYPASSED + p in ProtectedReason(tree, path, expected) <==>
      path == p && p in tree && tree[p].hash != expected && tree[p].text.Some? && HasBypass(tree[p].text.value)
  {
    hide MISSING, CHANGED, BYPASSED, HasBypass;
    ProtectedTextsDiffer(p, path);
    ProtectedTextsDiffer(path, p);
    SameText(MISSING, p, path);
    SameText(CHANGED, p, path);
    SameText(BYPASSED, p, path);
  }

  lemma ProtectedSays(tree: Tree, pinned: Pinned, p: string)
    requires pinned.Valid()
    ensures var all := ProtectedReasons(tree, pinned, pinned.order);
      && (MISSING + p in all <==> p in pinned.hash && p !in tree)
      && (CHANGED + p in all <==> Altered(tree, pinned, p))
      && (BYPASSED + p in all <==>
            Altered(tree, pinned, p) && tree[p].text.Some? && HasBypass(tree[p].text.value))
  {
    hide MISSING, CHANGED, BYPASSED, HasBypass, ProtectedReason, ProtectedReasons;
    ProtectedFrom(tree, pinned, pinned.order, MISSING + p);
    ProtectedFrom(tree, pinned, pinned.order, CHANGED + p);
    ProtectedFrom(tree, pinned, pinned.order, BYPASSED + p);
    forall path <- pinned.order ensures path in pinned.hash {
    }
    forall path | path in pinned.hash
      ensures MISSING + p in ProtectedReason(tree, path, pinned.hash[path]) <==> path == p && p !in tree
      ensures CHANGED + p in ProtectedReason(tree, path, pinned.hash[path]) <==> path == p && Altered(tree, pinned, p)
      ensures BYPASSED + p in ProtectedReason(tree, path, pinned.hash[path]) <==>
        path == p && Altered(tree, pinned, p) && tree[p].text.Some? && HasBypass(tree[p].text.value)
    {
      OneProtected(tree, path, pinned.hash[path], p);
    }
  }

  /** No reason about a pinned file reads like this. */
  ghost predicate NotOfPins(r: string) {
    forall path: string :: r != MISSING + path && r != CHANGED + path && r != BYPASSED + path
  }

  lemma PinsNeverSay(tree: Tree, pinned: Pinned, r: string)
    requires pinned.Valid() && NotOfPins(r)
    ensures r !in ProtectedReasons(tree, pinned, pinned.order)
  {
    hide MISSING, CHANGED, BYPASSED, HasBypass, ProtectedReasons;
    ProtectedFrom(tree, pinned, pinned.order, r);
  }

  lemma OtherTexts(p: string)
    ensures NotOfPins(CONFIG_CHANGED + p) && NotOfPins(FORBIDDEN + p) && NotOfPins(OUTSIDE + p) && NotOfPins(WRONG_BUNDLE)
  {
    hide MISSING, CHANGED, BYPASSED, CONFIG_CHANGED, FORBIDDEN, OUTSIDE, WRONG_BUNDLE;
    forall path: string ensures CONFIG_CHANGED + p != MISSING + path && CONFIG_CHANGED + p != CHANGED + path
      && CONFIG_CHANGED + p != BYPASSED + path && FORBIDDEN + p != MISSING + path && FORBIDDEN + p != CHANGED + path
      && FORBIDDEN + p != BYPASSED + path && OUTSIDE + p != MISSING + path && OUTSIDE + p != CHANGED + path
      && OUTSIDE + p != BYPASSED + path && WRONG_BUNDLE != MISSING + path && WRONG_BUNDLE != CHANGED + path
      && WRONG_BUNDLE != BYPASSED + path
    {
      ConfigTextDiffers(p, path);
      ForbiddenTextDiffers(p, path);
      OutsideTextDiffers(p, path);
      BundleTextDiffers(path);
    }
  }

  lemma ProtectedOnly(tree: Tree, pinned: Pinned, p: string)
    requires pinned.Valid()
    ensures var all := ProtectedReasons(tree, pinned, pinned.order);
      CONFIG_CHANGED + p !in all && FORBIDDEN + p !in all && OUTSIDE + p !in all && WRONG_BUNDLE !in all
  {
    hide CONFIG_CHANGED, FORBIDDEN, OUTSIDE, WRONG_BUNDLE, ProtectedReasons, NotOfPins;
    OtherTexts(p);
    PinsNeverSay(tree, pinned, CONFIG_CHANGED + p);
    PinsNeverSay(tree, pinned, FORBIDDEN + p);
    PinsNeverSay(tree, pinned, OUTSIDE + p);
    PinsNeverSay(tree, pinned, WRONG_BUNDLE);
  }

  lemma ConfigSays(paths: seq<string>, exempt: map<string, string>, p: string)
    ensures var all := ConfigReasons(paths, exempt);
      && (CONFIG_CHANGED + p in all <==> p in paths && p !in exempt && PathName(p) in CONFIG_NAMES)
      && MISSING + p !in all && CHANGED + p !in all && BYPASSED + p !in all
      && FORBIDDEN + p !in all && OUTSIDE + p !in all && WRONG_BUNDLE !in all
  {
    hide MISSING, CHANGED, BYPASSED, CONFIG_CHANGED, FORBIDDEN, OUTSIDE, WRONG_BUNDLE, PathName, CONFIG_NAMES, ConfigReasons;
    forall r ensures r in ConfigReasons(paths, exempt) <==> exists path <- paths :: r in ConfigReason(path, exempt) {
      ConfigFrom(paths, exempt, r);
    }
    forall path ensures (CONFIG_CHANGED + p == CONFIG_CHANGED + path <==> p == path)
      && CONFIG_CHANGED + path != MISSING + p && CONFIG_CHANGED + path != CHANGED + p
      && CONFIG_CHANGED + path != BYPASSED + p && CONFIG_CHANGED + path != FORBIDDEN + p
      && CONFIG_CHANGED + path != OUTSIDE + p && CONFIG_CHANGED + path != WRONG_BUNDLE
    {
      SameText(CONFIG_CHANGED, p, path);
      ConfigTextDiffers(path, p);
      ForbiddenTextDiffers(p, path);
      OutsideTextDiffers(p, path);
      BundleTextDiffers(path);
    }
  }

  lemma OneScope(c: Contract, path: string, exempt: map<string, string>, p: string)
    ensures var all := ScopeReason(c, path, exempt);
      && (FORBIDDEN + p in all <==> path == p && p !in exempt && InScope(p, c.forbiddenScope))
      && (OUTSIDE + p in all <==> path == p && p !in exempt && c.allowedScope != [] && !InScope(p, c.allowedScope))
      && MISSING + p !in all && CHANGED + p !in all && BYPASSED + p !in all
      && CONFIG_CHANGED + p !in all && WRONG_BUNDLE !in all
  {
    hide MISSING, CHANGED, BYPASSED, CONFIG_CHANGED, FORBIDDEN, OUTSIDE, WRONG_BUNDLE, InScope;
    SameText(FORBIDDEN, p, path);
    SameText(OUTSIDE, p, path);
    ForbiddenTextDiffers(path, p);
    ForbiddenTextDiffers(p, path);
    OutsideTextDiffers(path, p);
    BundleTextDiffers(path);
  }

  lemma ScopeSays(c: Contract, paths: seq<string>, exempt: map<string, string>, p: string)
    ensures var all := ScopeReasons(c, paths, exempt);
      && (FORBIDDEN + p in all <==> p in paths && p !in exempt && InScope(p, c.forbiddenScope))
      && (OUTSIDE + p in all <==> p in paths && p !in exempt && c.allowedScope != [] && !InScope(p, c.allowedScope))
      && MISSING + p !in all && CHANGED + p !in all && BYPASSED + p !in all
      && CONFIG_CHANGED + p !in all && WRONG_BUNDLE !in all
  {
    hide MISSING, CHANGED, BYPASSED, CONFIG_CHANGED, FORBIDDEN, OUTSIDE, WRONG_BUNDLE, InScope, ScopeReason, ScopeReasons;
    forall r ensures r in ScopeReasons(c, paths, exempt) <==> exists path <- paths :: r in ScopeReason(c, path, exempt) {
      ScopeFrom(c, paths, exempt, r);
    }
    forall path
      ensures var all := ScopeReason(c, path, exempt);
        && (FORBIDDEN + p in all <==> path == p && p !in exempt && InScope(p, c.forbiddenScope))
        && (OUTSIDE + p in all <==> path == p && p !in exempt && c.allowedScope != [] && !InScope(p, c.allowedScope))
        && MISSING + p !in all && CHANGED + p !in all && BYPASSED + p !in all
        && CONFIG_CHANGED + p !in all && WRONG_BUNDLE !in all
    {
      OneScope(c, path, exempt, p);
    }
  }

  // ------------------------------------------------------------- the verdicts

  /** The text opts out of a test in one of these ways. */
  predicate OptsOut(text: string) {
    || Contains(text, "pytest.skip(") || Contains(text, "@pytest.mark.skip") || Contains(text, "@pytest.mark.xfail")
    || Contains(text, "unittest.skip") || Contains(text, "test.skip(") || Contains(text, "test.only(")
    || Contains(text, ".skip(")
  }

  lemma OptsOutIff(text: string)
    ensures HasBypass(text) <==> OptsOut(text)
  {
    hide Contains;
    var m := BYPASS_MARKERS;
    assert m[0] in m && m[1] in m && m[2] in m && m[3] in m && m[4] in m && m[5] in m && m[6] in m;
  }

  /** The files that configure how tests are run. */
  predicate Configures(name: string) {
    || name == "pytest.ini" || name == "pyproject.toml" || name == "tox.ini"
    || name == "package.json" || name == "vitest.config.ts" || name == "jest.config.js"
  }

  lemma ConfiguresIff(name: string)
    ensures name in CONFIG_NAMES <==> Configures(name)
  {
  }

  /** What the tree says about a pinned path, and a changed one. */
  ghost predicate SaysOfPins(reasons: seq<string>, tree: Tree, pinned: Pinned, p: string) {
    && ("protected test missing or renamed: " + p in reasons <==> p in pinned.hash && p !in tree)
    && ("protected test changed: " + p in reasons <==>
          p in pinned.hash && p in tree && tree[p].hash != pinned.hash[p])
    && ("test bypass marker present: " + p in reasons <==>
          p in pinned.hash && p in tree && tree[p].hash != pinned.hash[p]
          && tree[p].text.Some? && OptsOut(tree[p].text.value))
  }

  ghost predicate SaysOfConfig(reasons: seq<string>, changed: seq<string>, pinned: Pinned, p: string) {
    "verification configuration changed: " + p in reasons <==>
      Touched(changed, p) && p !in pinned.hash && Configures(PathName(p))
  }

  ghost predicate SaysOfScope(reasons: seq<string>, c: Contract, changed: seq<string>, pinned: Pinned, p: string) {
    && ("forbidden path changed: " + p in reasons <==>
          Touched(changed, p) && p !in pinned.hash && exists scope <- c.forbiddenScope :: Matches(p, scope))
    && ("path outside allowed scope: " + p in reasons <==>
          Touched(changed, p) && p !in pinned.hash && c.allowedScope != []
          && !exists scope <- c.allowedScope :: Matches(p, scope))
  }

  lemma CandidateIn(tree: Tree, c: Contract, b: Bundle, changed: seq<string>, r: string)
    requires b.pinned.Valid()
    ensures r in Judge(CandidateReasons(tree, c, b, changed)).reasons <==>
      (r == WRONG_BUNDLE && !Validates(b, c.id, c.revision)) || r in ProtectedReasons(tree, b.pinned, b.pinned.order)
      || r in ConfigReasons(ChangedPaths(changed), b.pinned.hash)
      || r in ScopeReasons(c, ChangedPaths(changed), b.pinned.hash)
  {
    hide Validates, ProtectedReasons, ConfigReasons, ScopeReasons, ChangedPaths, Distinct, WRONG_BUNDLE;
    DistinctKeeps(CandidateReasons(tree, c, b, changed));
  }

  lemma PinsSaid(reasons: seq<string>, tree: Tree, pinned: Pinned, p: string)
    requires MISSING + p in reasons <==> p in pinned.hash && p !in tree
    requires CHANGED + p in reasons <==> Altered(tree, pinned, p)
    requires BYPASSED + p in reasons <==>
      Altered(tree, pinned, p) && tree[p].text.Some? && HasBypass(tree[p].text.value)
    ensures SaysOfPins(reasons, tree, pinned, p)
  {
    hide HasBypass, OptsOut;
    if p in tree && tree[p].text.Some? {
      OptsOutIff(tree[p].text.value);
    }
  }

  lemma ConfigSaid(reasons: seq<string>, changed: seq<string>, pinned: Pinned, p: string)
    requires CONFIG_CHANGED + p in reasons <==>
      Touched(changed, p) && p !in pinned.hash && PathName(p) in CONFIG_NAMES
    ensures SaysOfConfig(reasons, changed, pinned, p)
  {
    hide CONFIG_NAMES, Configures, PathName, Touched;
    ConfiguresIff(PathName(p));
  }

  lemma ScopeSaid(reasons: seq<string>, c: Contract, changed: seq<string>, pinned: Pinned, p: string)
    requires FORBIDDEN + p in reasons <==> Touched(changed, p) && p !in pinned.hash && InScope(p, c.forbiddenScope)
    requires OUTSIDE + p in reasons <==>
      Touched(changed, p) && p !in pinned.hash && c.allowedScope != [] && !InScope(p, c.allowedScope)
    ensures SaysOfScope(reasons, c, changed, pinned, p)
  {
    hide Matches, Touched;
  }

  /** The implementation gate gives each reason, in the words it has for that fault, exactly when the fault is there. */
  lemma CandidateVerdictSays(tree: Tree, c: Contract, b: Bundle, changed: seq<string>, p: string)
    requires b.pinned.Valid()
    ensures var reasons := Judge(CandidateReasons(tree, c, b, changed)).reasons;
      && SaysOfPins(reasons, tree, b.pinned, p)
      && SaysOfConfig(reasons, changed, b.pinned, p)
      && SaysOfScope(reasons, c, changed, b.pinned, p)
      && ("test bundle does not match task revision" !in reasons <==>
            b.frozen && b.taskId == c.id && b.taskRevision == c.revision)
  {
    hide CandidateReasons, Judge, SaysOfPins, SaysOfConfig, SaysOfScope;
    var reasons := Judge(CandidateReasons(tree, c, b, changed)).reasons;
    ChangedPathsAre(changed, p);
    ProtectedSays(tree, b.pinned, p);
    ProtectedOnly(tree, b.pinned, p);
    ConfigSays(ChangedPaths(changed), b.pinned.hash, p);
    ScopeSays(c, ChangedPaths(changed), b.pinned.hash, p);
    BundleTextDiffers(p);
    forall r ensures r in reasons <==>
        (r == WRONG_BUNDLE && !Validates(b, c.id, c.revision)) || r in ProtectedReasons(tree, b.pinned, b.pinned.order)
        || r in ConfigReasons(ChangedPaths(changed), b.pinned.hash)
        || r in ScopeReasons(c, ChangedPaths(changed), b.pinned.hash) {
      CandidateIn(tree, c, b, changed, r);
    }
    assert SaysOfPins(reasons, tree, b.pinned, p) by {
      PinsSaid(reasons, tree, b.pinned, p);
    }
    assert SaysOfConfig(reasons, changed, b.pinned, p) by {
      ConfigSaid(reasons, changed, b.pinned, p);
    }
    assert SaysOfScope(reasons, c, changed, b.pinned, p) by {
      ScopeSaid(reasons, c, changed, b.pinned, p);
    }
  }

  /** So does the authoring gate, about the checks that were there before. */
  lemma AuthoringVerdictSays(tree: Tree, existing: Pinned, changed: seq<string>, p: string)
    requires existing.Valid()
    ensures var reasons := Judge(AuthoringReasons(tree, existing, changed)).reasons;
      SaysOfPins(reasons, tree, existing, p) && SaysOfConfig(reasons, changed, existing, p)
  {
    hide ProtectedReasons, ConfigReasons, ChangedPaths, PathName, CONFIG_NAMES, Touched, HasBypass, OptsOut, Configures,
         Distinct;
    ConfiguresIff(PathName(p));
    if p in tree && tree[p].text.Some? {
      OptsOutIff(tree[p].text.value);
    }
    ProtectedSays(tree, existing, p);
    ProtectedOnly(tree, existing, p);
    ConfigSays(ChangedPaths(changed), existing.hash, p);
    ChangedPathsAre(changed, p);
    DistinctKeeps(AuthoringReasons(tree, existing, changed));
  }

  // ------------------------------------------------------------- their order

  /** Bundle first, then pinned files, then configuration, then scope. */
  function Rank(r: string): nat {
    if r == "test bundle does not match task revision" then 0
    else if "protected test " <= r || "test bypass marker present: " <= r then 1
    else if "verification configuration changed: " <= r then 2
    else 3
  }

  predicate Ranked(reasons: seq<string>) {
    forall i, j :: 0 <= i < j < |reasons| ==> Rank(reasons[i]) <= Rank(reasons[j])
  }

  predicate AllRanked(reasons: seq<string>, k: nat) {
    forall r <- reasons :: Rank(r) == k
  }

  lemma PinnedRank(path: string)
    ensures Rank(MISSING + path) == 1 && Rank(CHANGED + path) == 1 && Rank(BYPASSED + path) == 1
  {
    BundleTextDiffers(path);
  }

  lemma OtherRanks(path: string)
    ensures Rank(CONFIG_CHANGED + path) == 2 && Rank(FORBIDDEN + path) == 3 && Rank(OUTSIDE + path) == 3
  {
    BundleTextDiffers(path);
    assert (CONFIG_CHANGED + path)[0] == 'v' && (FORBIDDEN + path)[0] == 'f' && (OUTSIDE + path)[1] == 'a';
  }

  lemma {:induction false} ProtectedRanked(tree: Tree, pinned: Pinned, order: seq<string>)
    requires forall path <- order :: path in pinned.hash
    ensures AllRanked(ProtectedReasons(tree, pinned, order), 1)
    decreases |order|
  {
    hide Rank, MISSING, CHANGED, BYPASSED, HasBypass;
    if order != [] {
      ProtectedRanked(tree, pinned, order[..|order| - 1]);
      PinnedRank(order[|order| - 1]);
    }
  }

  lemma {:induction false} ConfigRanked(paths: seq<string>, exempt: map<string, string>)
    ensures AllRanked(ConfigReasons(paths, exempt), 2)
    decreases |paths|
  {
    hide Rank, CONFIG_CHANGED, PathName, CONFIG_NAMES;
    if paths != [] {
      ConfigRanked(paths[..|paths| - 1], exempt);
      OtherRanks(paths[|paths| - 1]);
    }
  }

  lemma {:induction false} ScopeRanked(c: Contract, paths: seq<string>, exempt: map<string, string>)
    ensures AllRanked(ScopeReasons(c, paths, exempt), 3)
    decreases |paths|
  {
    hide Rank, FORBIDDEN, OUTSIDE, InScope;
    if paths != [] {
      ScopeRanked(c, paths[..|paths| - 1], exempt);
      OtherRanks(paths[|paths| - 1]);
    }
  }

  lemma RankedConcat(a: seq<string>, b: seq<string>, k: nat)
    requires Ranked(a) && (forall r <- a :: Rank(r) <= k) && AllRanked(b, k)
    ensures Ranked(a + b) && forall r <- a + b :: Rank(r) <= k
  {
    hide Rank;
  }

  lemma {:induction false} DistinctRanked(reasons: seq<string>)
    requires Ranked(reasons)
    ensures Ranked(Distinct(reasons))
    decreases |reasons|
  {
    hide Rank;
    if reasons != [] {
      var front, last := reasons[..|reasons| - 1], reasons[|reasons| - 1];
      DistinctRanked(front);
      DistinctKeeps(front);
      forall r <- Distinct(front) ensures Rank(r) <= Rank(last) {
        var i :| 0 <= i < |front| && front[i] == r;
        assert reasons[i] == r;
      }
    }
  }

  /** The reasons come bundle first, then pinned files, then configuration, then scope. */
  lemma VerdictOrder(tree: Tree, c: Contract, b: Bundle, changed: seq<string>)
    requires b.pinned.Valid()
    ensures Ranked(Judge(CandidateReasons(tree, c, b, changed)).reasons)
  {
    hide ProtectedReasons, ConfigReasons, ScopeReasons, ChangedPaths, Ranked, AllRanked, Distinct;
    var paths, pins := ChangedPaths(changed), b.pinned;
    var identity := if Validates(b, c.id, c.revision) then [] else [WRONG_BUNDLE];
    ProtectedRanked(tree, pins, pins.order);
    ConfigRanked(paths, pins.hash);
    ScopeRanked(c, paths, pins.hash);
    assert Ranked(identity) by { ShortRanked(identity); }
    RankedConcat(identity, ProtectedReasons(tree, pins, pins.order), 1);
    RankedConcat(identity + ProtectedReasons(tree, pins, pins.order), ConfigReasons(paths, pins.hash), 2);
    RankedConcat(identity + ProtectedReasons(tree, pins, pins.order) + ConfigReasons(paths, pins.hash),
      ScopeReasons(c, paths, pins.hash), 3);
    DistinctRanked(CandidateReasons(tree, c, b, changed));
  }

  lemma ShortRanked(reasons: seq<string>)
    requires |reasons| <= 1
    ensures Ranked(reasons)
  {
  }
}
