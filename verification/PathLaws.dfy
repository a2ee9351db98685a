/** What the POSIX form, the base name and the check-path test are, on the path's own segments. */
module PathLaws {
  import opened PyText
  import opened PathNames

  lemma SlashedSame(a: string, b: string)
    ensures Slashed(a + "\\" + b) == Slashed(a + "/" + b)
  {
  }

  /** A backslash separates like a slash, in a path, in a scope and in a check's name. */
  lemma BackslashIsSlash(a: string, b: string, other: string)
    ensures Matches(a + "\\" + b, other) <==> Matches(a + "/" + b, other)
    ensures Matches(other, a + "\\" + b) <==> Matches(other, a + "/" + b)
    ensures IsCheckPath(a + "\\" + b) <==> IsCheckPath(a + "/" + b)
  {
    hide Slashed, Contains;
    SlashedSame(a, b);
  }

  /** Something that does not end in a dot. */
  predicate DotlessEnd(s: string) {
    s != "" && s[|s| - 1] != '.'
  }

  lemma {:induction false} DropThenSlash(s: string)
    requires s == "" || s[|s| - 1] != '.'
    ensures DropDotSlash(s + "/") == DropDotSlash(s) + "/"
  {
    if "./" <= s {
      assert (s + "/")[2..] == s[2..] + "/";
      DropThenSlash(s[2..]);
    } else {
      assert "./"[0] == '.' && "./"[1] == '/';
      if |s| >= 2 {
        assert (s + "/")[..2] == s[..2];
      } else if |s| == 1 {
        assert (s + "/")[0] == s[0];
      }
    }
  }

  lemma {:induction false} StripSlash(s: string)
    ensures Strip(s + "/", IsSlash) == Strip(s, IsSlash)
  {
    if s == "" {
      assert "" + "/" == "/" && "/"[1..] == "";
    } else if IsSlash(s[0]) {
      assert (s + "/")[1..] == s[1..] + "/";
      StripSlash(s[1..]);
    } else {
      assert (s + "/")[..|s|] == s;
    }
  }

  lemma NormalSlash(s: string)
    requires DotlessEnd(s)
    ensures Normal(s + "/") == Normal(s)
  {
    assert Slashed(s + "/") == Slashed(s) + "/";
    DropThenSlash(Slashed(s));
    StripSlash(DropDotSlash(Slashed(s)));
  }

  /** A slash behind a scope or a path that does not end in a dot makes no difference to what matches. */
  lemma TrailingSlash(path: string, scope: string)
    requires DotlessEnd(path) && DotlessEnd(scope) && !WholeTree(scope)
    ensures Matches(path, scope + "/") <==> Matches(path, scope)
    ensures Matches(path + "/", scope) <==> Matches(path, scope)
  {
    NormalSlash(path);
    NormalSlash(scope);
    WholeTreeSpelled(scope);
    WholeTreeSpelled(scope + "/");
    assert (scope + "/")[|scope| - 1] == scope[|scope| - 1];
    assert |scope + "/"| == |scope| + 1;
  }

  lemma NormalAfterSlash(s: string)
    requires !("./" <= Slashed(s))
    ensures Normal("/" + s) == Normal(s)
  {
    assert Slashed("/" + s) == "/" + Slashed(s);
    assert ("/" + Slashed(s))[0] == '/' && ("/" + Slashed(s))[1..] == Slashed(s);
  }

  /** Nor does a slash in front of one that does not open with "./". */
  lemma LeadingSlash(path: string, scope: string)
    requires !("./" <= Slashed(path)) && !("./" <= Slashed(scope)) && !WholeTree(scope)
    ensures Matches(path, "/" + scope) <==> Matches(path, scope)
    ensures Matches("/" + path, scope) <==> Matches(path, scope)
  {
    NormalAfterSlash(path);
    NormalAfterSlash(scope);
    WholeTreeSpelled("/" + scope);
    assert ("/" + scope)[0] == '/';
  }

  /** A path with something in front of its next slash. */
  predicate Front(a: string) {
    a != "" && a[|a| - 1] != '/'
  }

  lemma SegmentsConcat(a: string, b: string)
    ensures Segments(a + "/" + b) == Segments(a) + Segments(b)
  {
    SettledSingle(a, "/");
    SplitConcat(a, b, "/");
  }

  lemma {:induction false} ComponentsConcat(x: seq<string>, y: seq<string>)
    ensures Components(x + y) == Components(x) + Components(y)
    decreases |y|
  {
    if y == [] {
      assert x + y == x;
    } else {
      assert (x + y)[..|x + y| - 1] == x + y[..|y| - 1];
      ComponentsConcat(x, y[..|y| - 1]);
    }
  }

  lemma ComponentsOfOne(part: string)
    ensures Components([part]) == if part == "" || part == "." then [] else [part]
  {
    assert [part][..0] == [];
  }

  lemma DotSegment()
    ensures Segments(".") == ["."] && Segments("") == [""]
  {
    SlashFree(".");
    SlashFree("");
  }

  lemma RootOfFront(a: string, rest: string)
    requires Front(a)
    ensures Root(a + "/" + rest) == Root(a)
  {
  }

  /** An empty or dot segment makes no difference, to the form or to the name. */
  lemma PosixCollapses(a: string, b: string)
    requires Front(a)
    ensures AsPosix(a + "//" + b) == AsPosix(a + "/" + b) && AsPosix(a + "/./" + b) == AsPosix(a + "/" + b)
    ensures PathName(a + "//" + b) == PathName(a + "/" + b) && PathName(a + "/./" + b) == PathName(a + "/" + b)
  {
    hide Components, Root;
    var empty, dot := a + "/" + ("" + "/" + b), a + "/" + ("." + "/" + b);
    assert a + "//" + b == empty && a + "/./" + b == dot;
    DotSegment();
    SegmentsConcat(a, b);
    SegmentsConcat("", b);
    SegmentsConcat(".", b);
    SegmentsConcat(a, "" + "/" + b);
    SegmentsConcat(a, "." + "/" + b);
    ComponentsConcat(Segments(a), Segments(b));
    ComponentsConcat([""], Segments(b));
    ComponentsConcat(["."], Segments(b));
    ComponentsConcat(Segments(a), [""] + Segments(b));
    ComponentsConcat(Segments(a), ["."] + Segments(b));
    ComponentsOfOne("");
    ComponentsOfOne(".");
    RootOfFront(a, b);
    RootOfFront(a, "" + "/" + b);
    RootOfFront(a, "." + "/" + b);
    assert [] + Components(Segments(b)) == Components(Segments(b));
  }

  /** Nothing to collapse: no segment is empty or a dot. */
  predicate InForm(path: string) {
    var parts := Segments(path); forall i :: 0 <= i < |parts| ==> parts[i] != "" && parts[i] != "."
  }

  lemma {:induction false} ComponentsKeep(parts: seq<string>)
    requires forall i :: 0 <= i < |parts| ==> parts[i] != "" && parts[i] != "."
    ensures Components(parts) == parts
    decreases |parts|
  {
    if parts != [] {
      ComponentsKeep(parts[..|parts| - 1]);
      assert parts == parts[..|parts| - 1] + [parts[|parts| - 1]];
    }
  }

  lemma FirstSlash(path: string)
    ensures "/" <= path ==> "" in Segments(path)
  {
    if "/" <= path {
      SplitHere(path[1..], "/");
      assert path == "/" + path[1..];
      assert Segments(path)[0] == "";
    }
  }

  /** A path in that form, `..` included, is its own POSIX form. */
  lemma PosixKeeps(path: string)
    requires InForm(path)
    ensures AsPosix(path) == path
  {
    ComponentsKeep(Segments(path));
    JoinSplit(path, "/");
    assert !("/" <= path) by {
      FirstSlash(path);
    }
  }

  lemma SlashFree(name: string)
    requires '/' !in name
    ensures Segments(name) == [name]
  {
    forall k | 0 <= k <= |name| ensures !("/" <= name[k..]) {
      assert k < |name| ==> name[k] in name;
    }
    SplitWhole(name, "/");
  }

  /** The name is the last segment. */
  lemma NameIsLast(dir: string, name: string)
    requires '/' !in name && name != "" && name != "."
    ensures PathName(dir + "/" + name) == name && PathName(name) == name
  {
    SlashFree(name);
    SegmentsConcat(dir, name);
    ComponentsConcat(Segments(dir), [name]);
    ComponentsOfOne(name);
  }

  // ------------------------------------------------------------ check paths

  /** Some segment other than the last is `tests`. */
  predicate UnderTests(parts: seq<string>) {
    exists i :: 0 <= i < |parts| - 1 && parts[i] == "tests"
  }

  lemma SegmentsOfTests()
    ensures Segments("tests") == ["tests"]
  {
    SlashFree("tests");
  }

  lemma TestsInside(s: string, k: nat)
    requires k <= |s| && "/tests/" <= s[k..]
    ensures UnderTests(Segments(s))
  {
    hide UnderTests;
    var x, y := s[..k], s[k + 7..];
    assert s[k..] == "/tests/" + s[k..][7..];
    assert s == x + "/" + ("tests" + "/" + y);
    SegmentsOfTests();
    SegmentsConcat("tests", y);
    SegmentsConcat(x, "tests" + "/" + y);
    TestsAt(Segments(x), Segments(y));
  }

  lemma TestsAt(front: seq<string>, back: seq<string>)
    requires back != []
    ensures UnderTests(front + (["tests"] + back))
  {
    assert (front + (["tests"] + back))[|front|] == "tests";
  }

  lemma TestsFirst(s: string)
    requires "tests/" <= s
    ensures UnderTests(Segments(s))
  {
    hide UnderTests;
    var y := s[6..];
    assert s == "tests" + "/" + y;
    SegmentsOfTests();
    SegmentsConcat("tests", y);
    TestsAt([], Segments(y));
    assert [] + (["tests"] + Segments(y)) == ["tests"] + Segments(y);
  }

  lemma UnderTestsSays(s: string)
    requires UnderTests(Segments(s))
    ensures "tests/" <= s || Contains(s, "/tests/")
  {
    hide Contains, Join, Split;
    var parts := Segments(s);
    var i :| 0 <= i < |parts| - 1 && parts[i] == "tests";
    var front, back := parts[..i], parts[i + 1..];
    JoinSplit(s, "/");
    assert parts == front + (["tests"] + back);
    JoinFirst("tests", back, "/");
    if i == 0 {
      assert parts == ["tests"] + back;
    } else {
      JoinConcat(front, ["tests"] + back, "/");
      Between(Join(front, "/"), Join(back, "/"));
    }
  }

  lemma Between(front: string, back: string)
    ensures Contains(front + "/" + ("tests" + "/" + back), "/tests/")
  {
    var s := front + "/" + ("tests" + "/" + back);
    assert s[|front|..] == "/tests/" + back;
  }

  predicate AllSlashes(s: string) {
    forall i :: 0 <= i < |s| ==> s[i] == '/'
  }

  lemma {:induction false} RStripSlashes(s: string, slashes: string)
    requires AllSlashes(slashes) && (s != "" ==> s[|s| - 1] != '/')
    ensures RStrip(s + slashes, IsSlash) == s
  {
    if slashes == "" {
      assert s + slashes == s;
    } else {
      assert (s + slashes)[..|s + slashes| - 1] == s + slashes[..|slashes| - 1];
      RStripSlashes(s, slashes[..|slashes| - 1]);
    }
  }

  lemma {:induction false} BaseAfterSlash(dir: string, name: string)
    requires '/' !in name && (dir != "" ==> dir[|dir| - 1] == '/')
    ensures BaseName(dir + name) == name
  {
    if name == "" {
      assert dir + name == dir;
    } else {
      assert name[|name| - 1] in name;
      assert (dir + name)[..|dir + name| - 1] == dir + name[..|name| - 1];
      BaseAfterSlash(dir, name[..|name| - 1]);
      assert name == name[..|name| - 1] + [name[|name| - 1]];
    }
  }

  /**
   A path is a check exactly when it lies under a `tests` segment or its last
   name, whatever slashes follow, opens with `test_` or is one of three; a
   backslash counts as a slash.
   */
  lemma CheckPathIff(path: string, dir: string, name: string, slashes: string)
    requires Slashed(path) == dir + name + slashes
    requires '/' !in name && (dir != "" ==> dir[|dir| - 1] == '/') && AllSlashes(slashes)
    requires name != "" || dir == ""
    ensures IsCheckPath(path) <==>
      UnderTests(Segments(Slashed(path))) || "test_" <= name || name in {"conftest.py", "pytest.ini", "tests"}
  {
    hide UnderTests;
    var s := Slashed(path);
    RStripSlashes(dir + name, slashes);
    BaseAfterSlash(dir, name);
    if UnderTests(Segments(s)) {
      UnderTestsSays(s);
    }
    if "tests/" <= s {
      TestsFirst(s);
    }
    if Contains(s, "/tests/") {
      var k :| 0 <= k <= |s| && "/tests/" <= s[k..];
      TestsInside(s, k);
    }
  }

  // -------------------------------------------------------------- byproducts

  /** A directory or package metadata that tools write. */
  predicate Generated(part: string) {
    || part in {"__pycache__", ".pytest_cache", ".mypy_cache", ".ruff_cache", ".tox", ".venv", "venv",
         "node_modules", ".git", "dist", "build", "htmlcov"}
    || EndsWith(part, ".egg-info")
  }

  lemma SuffixOfName(path: string, dir: string, name: string, suffix: string)
    requires Slashed(path) == dir + "/" + name
    requires '/' !in suffix && '\\' !in suffix && suffix != ""
    ensures EndsWith(path, suffix) <==> EndsWith(name, suffix)
  {
    var s, n, k := Slashed(path), |path|, |suffix|;
    if k <= |name| {
      assert s[n - k..] == name[|name| - k..];
      forall i | 0 <= i < k ensures path[n - k..][i] == suffix[i] <==> name[|name| - k..][i] == suffix[i] {
        assert s[n - k + i] == name[|name| - k + i];
      }
      assert path[n - k..] == suffix <==> forall i :: 0 <= i < k ==> path[n - k..][i] == suffix[i];
      assert name[|name| - k..] == suffix <==> forall i :: 0 <= i < k ==> name[|name| - k..][i] == suffix[i];
    } else if k <= n {
      assert s[|dir|] == '/';
      assert path[n - k..][|dir| - (n - k)] == path[|dir|];
      assert forall i :: 0 <= i < k ==> suffix[i] in suffix;
    }
  }

  /** A name that is dropped wherever it stands last. */
  predicate Dropped(name: string) {
    Generated(name) || EndsWith(name, ".pyc") || EndsWith(name, ".pyo") || ".coverage" <= name
  }

  /** The suffix test on a path is a test on its last segment. */
  lemma SuffixOfLast(path: string, suffix: string)
    requires '/' !in suffix && '\\' !in suffix && suffix != ""
    ensures var parts := Segments(Slashed(path)); EndsWith(path, suffix) <==> EndsWith(parts[|parts| - 1], suffix)
  {
    hide EndsWith, Split, Join;
    var s := Slashed(path);
    var parts := Segments(s);
    var front, last := parts[..|parts| - 1], parts[|parts| - 1];
    JoinSplit(s, "/");
    assert parts == front + [last];
    if front == [] {
      JoinOne(last, "/");
      assert parts == [last];
      SuffixWhole(path, suffix);
    } else {
      JoinConcat(front, [last], "/");
      JoinOne(last, "/");
      SuffixOfName(path, Join(front, "/"), last, suffix);
    }
  }

  lemma SuffixWhole(path: string, suffix: string)
    requires '/' !in suffix && '\\' !in suffix
    ensures EndsWith(path, suffix) <==> EndsWith(Slashed(path), suffix)
  {
    var s, n, k := Slashed(path), |path|, |suffix|;
    if k <= n {
      forall i | 0 <= i < k ensures path[n - k..][i] == suffix[i] <==> s[n - k..][i] == suffix[i] {
        assert suffix[i] in suffix;
        assert s[n - k + i] == s[n - k..][i];
      }
      assert path[n - k..] == suffix <==> forall i :: 0 <= i < k ==> path[n - k..][i] == suffix[i];
      assert s[n - k..] == suffix <==> forall i :: 0 <= i < k ==> s[n - k..][i] == suffix[i];
    }
  }

  /**
   A path is a byproduct exactly when a segment before the last is generated, or
   the last is dropped: generated too, ending in .pyc or .pyo, or opening with .coverage.
   */
  lemma ByproductIff(path: string)
    ensures var parts := Segments(Slashed(path)); var n := |parts| - 1;
      IsByproduct(path) <==> (exists i :: 0 <= i < n && Generated(parts[i])) || Dropped(parts[n])
  {
    hide EndsWith, Split;
    var parts := Segments(Slashed(path));
    var n := |parts| - 1;
    SuffixOfLast(path, ".pyc");
    SuffixOfLast(path, ".pyo");
    forall i | 0 <= i <= n
      ensures Generated(parts[i]) <==> parts[i] in BYPRODUCT_DIRS || EndsWith(parts[i], ".egg-info")
    {
    }
    assert (exists part <- parts :: part in BYPRODUCT_DIRS) <==> exists i :: 0 <= i <= n && parts[i] in BYPRODUCT_DIRS;
    assert (exists part <- parts :: EndsWith(part, ".egg-info"))
      <==> exists i :: 0 <= i <= n && EndsWith(parts[i], ".egg-info");
    hide BYPRODUCT_DIRS, Generated;
  }

  lemma {:induction false} SegmentChars(s: string, i: nat, c: char)
    requires i < |Segments(s)| && c in Segments(s)[i]
    ensures c in s
    decreases |s|
  {
    if "/" <= s {
      assert s == "/" + s[1..];
      SegmentChars(s[1..], i - 1, c);
    } else if s != "" {
      assert s == [s[0]] + s[1..];
      if i > 0 || c != s[0] {
        SegmentChars(s[1..], i, c);
      }
    }
  }

  /** Without backslashes each segment is a name of its own. */
  lemma SegmentAlone(path: string, i: nat)
    requires '\\' !in path && i < |Segments(path)|
    ensures IsByproduct(Segments(path)[i]) <==> Dropped(Segments(path)[i])
  {
    hide Generated, Dropped, EndsWith;
    var part := Segments(path)[i];
    PartsClean(path, "/", i);
    if '\\' in part {
      SegmentChars(path, i, '\\');
    }
    assert Slashed(part) == part;
    assert forall k :: 0 <= k < |part| && part[k] == '/' ==> "/" <= part[k..];
    SlashFree(part);
    ByproductIff(part);
  }
}
