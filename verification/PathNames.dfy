/** Repository-relative paths as the gate reads them: scopes, POSIX forms, base names. */
module PathNames {
  import opened PyText

  predicate IsSlash(c: char) { c == '/' }

  /** `s.replace("\\", "/")`. */
  function Slashed(s: string): (r: string)
    ensures |r| == |s|
  {
    seq(|s|, i requires 0 <= i < |s| => if s[i] == '\\' then '/' else s[i])
  }

  function DropDotSlash(s: string): string {
    if "./" <= s then DropDotSlash(s[2..]) else s
  }

  function Normal(s: string): string {
    Strip(DropDotSlash(Slashed(s)), IsSlash)
  }

  predicate WholeTree(scope: string) {
    Slashed(scope) in {"", ".", "./"}
  }

  /** What `_matches_scope` answers. */
  predicate Matches(path: string, scope: string) {
    WholeTree(scope) || Normal(path) == Normal(scope) || Normal(scope) + "/" <= Normal(path)
  }

  method MatchesScope(path: string, scope: string) returns (matched: bool)
    ensures matched == Matches(path, scope)
  {
    var scopeValue := Slashed(scope);
    if scopeValue in {"", ".", "./"} {
      return true;
    }
    var normalizedPath := Slashed(path);
    while "./" <= normalizedPath
      invariant DropDotSlash(normalizedPath) == DropDotSlash(Slashed(path))
      decreases |normalizedPath|
    {
      normalizedPath := normalizedPath[2..];
    }
    while "./" <= scopeValue
      invariant DropDotSlash(scopeValue) == DropDotSlash(Slashed(scope))
      decreases |scopeValue|
    {
      scopeValue := scopeValue[2..];
    }
    normalizedPath := Strip(normalizedPath, IsSlash);
    var normalizedScope := Strip(scopeValue, IsSlash);
    matched := normalizedPath == normalizedScope || normalizedScope + "/" <= normalizedPath;
  }

  function Segments(s: string): (segments: seq<string>)
    ensures segments != []
  {
    Split(s, "/")
  }

  /** The string test is the prefix order on segment lists. */
  lemma SegmentPrefix(path: string, scope: string)
    ensures path == scope || scope + "/" <= path <==> Segments(scope) <= Segments(path)
  {
    if path != scope && scope + "/" <= path {
      var rest := path[|scope| + 1..];
      assert path == scope + "/" + rest;
      SettledSingle(scope, "/");
      SplitConcat(scope, rest, "/");
    }
    if Segments(scope) <= Segments(path) {
      var rest := Segments(path)[|Segments(scope)|..];
      JoinSplit(path, "/");
      JoinSplit(scope, "/");
      assert Segments(path) == Segments(scope) + rest;
      if rest == [] {
        assert Segments(path) == Segments(scope);
      } else {
        JoinConcat(Segments(scope), rest, "/");
        assert path == scope + "/" + Join(rest, "/");
      }
    }
  }

  /** Outside the whole-tree spellings, a scope matches exactly the paths whose segments extend its own. */
  lemma MatchesIsSegmentPrefix(path: string, scope: string)
    requires !WholeTree(scope)
    ensures Matches(path, scope) <==> Segments(Normal(scope)) <= Segments(Normal(path))
  {
    SegmentPrefix(Normal(path), Normal(scope));
  }

  lemma MatchesTransitive(path: string, middle: string, scope: string)
    requires !WholeTree(middle)
    requires Matches(path, middle) && Matches(middle, scope)
    ensures Matches(path, scope)
  {
    if !WholeTree(scope) {
      MatchesIsSegmentPrefix(path, middle);
      MatchesIsSegmentPrefix(middle, scope);
      MatchesIsSegmentPrefix(path, scope);
    }
  }

  lemma LetterNormal(c: char)
    requires c != '/' && c != '.' && c != '\\'
    ensures Normal([c]) == [c]
  {
    assert Slashed([c]) == [c];
    assert Trimmed([c], IsSlash);
    TrimmedStrip([c], IsSlash);
  }

  lemma NeverBoth(scope: string)
    requires !WholeTree(scope)
    ensures !Matches("x", scope) || !Matches("y", scope)
  {
    LetterNormal('x');
    LetterNormal('y');
    MatchesIsSegmentPrefix("x", scope);
    MatchesIsSegmentPrefix("y", scope);
    SplitWhole("x", "/");
    SplitWhole("y", "/");
  }

  lemma WholeTreeSpelled(scope: string)
    ensures WholeTree(scope) <==> scope == "" || scope == "." || scope == "./" || scope == ".\\"
  {
    var s := Slashed(scope);
    if |scope| == 1 {
      assert s == [s[0]] && scope == [scope[0]];
    } else if |scope| == 2 {
      assert s == [s[0], s[1]] && scope == [scope[0], scope[1]];
    }
  }

  /** Only these spellings of the whole tree match every path: "/" or "././" do not. */
  lemma MatchesAllIff(scope: string)
    ensures (forall path :: Matches(path, scope)) <==> scope == "" || scope == "." || scope == "./" || scope == ".\\"
  {
    assert WholeTree(scope) <==> scope == "" || scope == "." || scope == "./" || scope == ".\\" by {
      WholeTreeSpelled(scope);
    }
    if !WholeTree(scope) {
      NeverBoth(scope);
    }
  }

  /** Through a whole-tree scope transitivity fails: "." lies in the scope "./.", "x" lies in ".", yet not in "./.". */
  lemma WholeTreeBreaksTransitivity()
    ensures Matches("x", ".") && Matches(".", "./.") && !Matches("x", "./.")
  {
    assert Slashed(".") == "." && Slashed("./.") == "./.";
    assert DropDotSlash("./.") == DropDotSlash("./."[2..]) && "./."[2..] == ".";
    LetterNormal('x');
    assert !("." + "/" <= "x");
  }

  // ---------------------------------------------------------- pure POSIX paths

  function Components(parts: seq<string>): seq<string> {
    if parts == [] then []
    else
      var before := Components(parts[..|parts| - 1]);
      var last := parts[|parts| - 1];
      if last == "" || last == "." then before else before + [last]
  }

  function Root(path: string): string {
    if "//" <= path && !("///" <= path) then "//" else if "/" <= path then "/" else ""
  }

  /** `Path(path).as_posix()`. */
  function AsPosix(path: string): string {
    var parts := Components(Segments(path));
    if Root(path) == "" && parts == [] then "." else Root(path) + Join(parts, "/")
  }

  /** `Path(path).name`. */
  function PathName(path: string): string {
    var parts := Components(Segments(path));
    if parts == [] then "" else parts[|parts| - 1]
  }

  // ------------------------------------------------------------- check paths

  /** `s.rsplit("/", 1)[-1]`. */
  function BaseName(s: string): string {
    if s == "" || s[|s| - 1] == '/' then "" else BaseName(s[..|s| - 1]) + [s[|s| - 1]]
  }

  predicate IsCheckPath(path: string) {
    var normalized := Slashed(path);
    var name := BaseName(RStrip(normalized, IsSlash));
    || "tests/" <= normalized
    || Contains(normalized, "/tests/")
    || "test_" <= name
    || name in {"conftest.py", "pytest.ini", "tests"}
  }

  const BYPRODUCT_DIRS := {
    "__pycache__", ".pytest_cache", ".mypy_cache", ".ruff_cache", ".tox", ".venv", "venv",
    "node_modules", ".git", "dist", "build", "htmlcov"
  }

  /** Regenerated per worktree, never evidence. */
  predicate IsByproduct(path: string) {
    var parts := Segments(Slashed(path));
    || (exists part <- parts :: part in BYPRODUCT_DIRS)
    || EndsWith(path, ".pyc") || EndsWith(path, ".pyo")
    || (exists part <- parts :: EndsWith(part, ".egg-info"))
    || ".coverage" <= parts[|parts| - 1]
  }

  lemma WholeTreeNames(normalized: string)
    requires normalized in {"", ".", "./"}
    ensures !("tests/" <= normalized) && !Contains(normalized, "/tests/")
    ensures BaseName(RStrip(normalized, IsSlash)) in {"", "."}
  {
    assert BaseName(".") == "." by {
      assert "."[..0] == "";
    }
    if normalized == "./" {
      assert normalized[..1] == ".";
      assert RStrip(normalized, IsSlash) == ".";
    }
  }

  /** No whole-tree spelling is a check path. */
  lemma CheckIsNotWholeTree(path: string)
    requires IsCheckPath(path)
    ensures !WholeTree(path)
  {
    if Slashed(path) in {"", ".", "./"} {
      WholeTreeNames(Slashed(path));
    }
  }

  /** A check path stays one when a trailing slash is added. */
  lemma CheckPathSlash(path: string)
    requires IsCheckPath(path)
    ensures IsCheckPath(path + "/")
  {
    var normalized := Slashed(path);
    assert Slashed(path + "/") == normalized + "/";
    assert (normalized + "/")[..|normalized|] == normalized;
    assert RStrip(normalized + "/", IsSlash) == RStrip(normalized, IsSlash);
    if Contains(normalized, "/tests/") {
      var k :| 0 <= k <= |normalized| && "/tests/" <= normalized[k..];
      assert (normalized + "/")[k..] == normalized[k..] + "/";
    }
  }

  // ------------------------------------------------- sorted, duplicate-free

  /** Code-point order on strings. */
  predicate Before(a: string, b: string) {
    b != "" && (a == "" || a[0] < b[0] || (a[0] == b[0] && Before(a[1..], b[1..])))
  }

  /** `k` is the first position where the two differ, and `a` is smaller there. */
  predicate SmallerAt(a: string, b: string, k: nat) {
    k < |a| && k < |b| && a[..k] == b[..k] && a[k] < b[k]
  }

  lemma SmallerLater(c: char, a: string, b: string, k: nat)
    ensures SmallerAt([c] + a, [c] + b, k + 1) <==> SmallerAt(a, b, k)
  {
    if k < |a| && k < |b| {
      assert ([c] + a)[..k + 1] == [c] + a[..k] && ([c] + b)[..k + 1] == [c] + b[..k];
      assert a[..k] == ([c] + a[..k])[1..] && b[..k] == ([c] + b[..k])[1..];
    }
  }

  /** One text is before another exactly when it is a proper prefix or smaller at the first difference. */
  lemma {:induction false} BeforeIff(a: string, b: string)
    ensures Before(a, b) <==> a < b || exists k: nat :: SmallerAt(a, b, k)
  {
    hide SmallerAt;
    if a != "" && b != "" && a[0] == b[0] {
      var x, y := a[1..], b[1..];
      BeforeIff(x, y);
      assert a == [a[0]] + x && b == [a[0]] + y;
      forall k: nat ensures SmallerAt(a, b, k + 1) <==> SmallerAt(x, y, k) {
        SmallerLater(a[0], x, y, k);
      }
      NotAtStart(a, b);
      if k: nat :| SmallerAt(a, b, k) {
        assert SmallerAt(x, y, k - 1);
      }
      if k: nat :| SmallerAt(x, y, k) {
        assert SmallerAt(a, b, k + 1);
      }
    } else {
      NotAtStart(a, b);
    }
  }

  lemma NotAtStart(a: string, b: string)
    ensures SmallerAt(a, b, 0) <==> a != "" && b != "" && a[0] < b[0]
    ensures a == "" || b == "" || a[0] != b[0] ==> forall k: nat :: 0 < k ==> !SmallerAt(a, b, k)
  {
    forall k: nat | 0 < k && SmallerAt(a, b, k) ensures a[0] == b[0] {
      assert a[..k][0] == b[..k][0];
    }
  }

  function Insert(x: string, sorted: seq<string>): seq<string> {
    if sorted == [] then [x]
    else if x == sorted[0] then sorted
    else if Before(x, sorted[0]) then [x] + sorted
    else [sorted[0]] + Insert(x, sorted[1..])
  }

  /** `sorted(set(paths))`. */
  function SortedSet(paths: seq<string>): seq<string> {
    if paths == [] then [] else Insert(paths[0], SortedSet(paths[1..]))
  }

  predicate Ascending(s: seq<string>) {
    forall i, j :: 0 <= i < j < |s| ==> Before(s[i], s[j])
  }

  lemma {:induction false} BeforeTotal(a: string, b: string)
    ensures a == b || Before(a, b) || Before(b, a)
  {
    if a != "" && b != "" && a[0] == b[0] {
      BeforeTotal(a[1..], b[1..]);
      assert a == [a[0]] + a[1..] && b == [b[0]] + b[1..];
    }
  }

  lemma {:induction false} BeforeTransitive(a: string, b: string, c: string)
    requires Before(a, b) && Before(b, c)
    ensures Before(a, c)
  {
    if a != "" && a[0] == b[0] && b[0] == c[0] {
      BeforeTransitive(a[1..], b[1..], c[1..]);
    }
  }

  lemma {:induction false} BeforeIrreflexive(a: string)
    ensures !Before(a, a)
  {
    if a != "" {
      BeforeIrreflexive(a[1..]);
    }
  }

  lemma {:induction false} InsertMembers(x: string, sorted: seq<string>, y: string)
    ensures y in Insert(x, sorted) <==> y == x || y in sorted
  {
    if sorted != [] && x != sorted[0] && !Before(x, sorted[0]) {
      InsertMembers(x, sorted[1..], y);
      assert sorted == [sorted[0]] + sorted[1..];
    }
  }

  lemma {:induction false} InsertAscends(x: string, sorted: seq<string>)
    requires Ascending(sorted)
    ensures Ascending(Insert(x, sorted))
  {
    if sorted != [] && x != sorted[0] {
      if Before(x, sorted[0]) {
        forall j | 0 < j < |sorted| ensures Before(x, sorted[j]) {
          BeforeTransitive(x, sorted[0], sorted[j]);
        }
      } else {
        BeforeTotal(x, sorted[0]);
        InsertAscends(x, sorted[1..]);
        var rest := Insert(x, sorted[1..]);
        forall j | 0 <= j < |rest| ensures Before(sorted[0], rest[j]) {
          InsertMembers(x, sorted[1..], rest[j]);
        }
      }
    }
  }

  lemma {:induction false} SortedSetMembers(paths: seq<string>, y: string)
    ensures y in SortedSet(paths) <==> y in paths
  {
    if paths != [] {
      SortedSetMembers(paths[1..], y);
      InsertMembers(paths[0], SortedSet(paths[1..]), y);
      assert paths == [paths[0]] + paths[1..];
    }
  }

  lemma {:induction false} SortedSetAscends(paths: seq<string>)
    ensures Ascending(SortedSet(paths))
  {
    if paths != [] {
      SortedSetAscends(paths[1..]);
      InsertAscends(paths[0], SortedSet(paths[1..]));
    }
  }

  lemma {:induction false} AscendingUnique(a: seq<string>, b: seq<string>)
    requires Ascending(a) && Ascending(b)
    requires forall x :: x in a <==> x in b
    ensures a == b
  {
    assert forall i :: 0 <= i < |a| ==> a[i] in b;
    assert forall i :: 0 <= i < |b| ==> b[i] in a;
    if a != [] {
      SameHead(a, b);
      forall x ensures x in a[1..] <==> x in b[1..] {
        TailMembers(a, x);
        TailMembers(b, x);
      }
      AscendingUnique(a[1..], b[1..]);
      assert a == [a[0]] + a[1..] && b == [b[0]] + b[1..];
    }
  }

  lemma SameHead(a: seq<string>, b: seq<string>)
    requires Ascending(a) && Ascending(b) && a != [] && b != []
    requires a[0] in b && b[0] in a
    ensures a[0] == b[0]
  {
    if a[0] != b[0] {
      BeforeTransitive(a[0], b[0], a[0]);
      BeforeIrreflexive(a[0]);
    }
  }

  lemma TailMembers(a: seq<string>, x: string)
    requires Ascending(a) && a != []
    ensures x in a[1..] <==> x in a && x != a[0]
  {
    BeforeIrreflexive(a[0]);
    assert a == [a[0]] + a[1..];
  }

  /** Order and repetition of the change list do not matter. */
  lemma SortedSetCanonical(a: seq<string>, b: seq<string>)
    requires forall x :: x in a <==> x in b
    ensures SortedSet(a) == SortedSet(b)
  {
    SortedSetAscends(a);
    SortedSetAscends(b);
    forall x ensures x in SortedSet(a) <==> x in SortedSet(b) {
      SortedSetMembers(a, x);
      SortedSetMembers(b, x);
    }
    AscendingUnique(SortedSet(a), SortedSet(b));
  }
}
