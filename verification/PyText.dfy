/** The Python string operations the repository relies on, with the laws used about them. */
module PyText {
  /** Characters `str.isspace` accepts; `split()` and `strip()` with no argument work on these. */
  predicate IsSpace(c: char) {
    || '\t' <= c <= '\r' || '\U{1C}' <= c <= ' ' || c == '\U{85}' || c == '\U{A0}' || c == '\U{1680}'
    || '\U{2000}' <= c <= '\U{200A}' || c == '\U{2028}' || c == '\U{2029}' || c == '\U{202F}'
    || c == '\U{205F}' || c == '\U{3000}'
  }

  predicate EndsWith(s: string, suffix: string) {
    |suffix| <= |s| && s[|s| - |suffix|..] == suffix
  }

  /** `part in s`. */
  predicate Contains(s: string, part: string) {
    exists k :: 0 <= k <= |s| && part <= s[k..]
  }

  function LStrip(s: string, drop: char -> bool): string {
    if s != [] && drop(s[0]) then LStrip(s[1..], drop) else s
  }

  function RStrip(s: string, drop: char -> bool): string {
    if s != [] && drop(s[|s| - 1]) then RStrip(s[..|s| - 1], drop) else s
  }

  function Strip(s: string, drop: char -> bool): string {
    RStrip(LStrip(s, drop), drop)
  }

  /** Neither end of `s` would be stripped. */
  predicate Trimmed(s: string, drop: char -> bool) {
    s != [] ==> !drop(s[0]) && !drop(s[|s| - 1])
  }

  lemma {:induction false} LStripIs(s: string, drop: char -> bool)
    ensures exists k :: 0 <= k <= |s| && LStrip(s, drop) == s[k..]
    ensures LStrip(s, drop) != [] ==> !drop(LStrip(s, drop)[0])
  {
    if s != [] && drop(s[0]) {
      LStripIs(s[1..], drop);
      var k :| 0 <= k <= |s[1..]| && LStrip(s[1..], drop) == s[1..][k..];
      assert s[1..][k..] == s[k + 1..];
    } else {
      assert s[0..] == s;
    }
  }

  lemma {:induction false} RStripIs(s: string, drop: char -> bool)
    ensures exists k :: 0 <= k <= |s| && RStrip(s, drop) == s[..k]
    ensures RStrip(s, drop) != [] ==> !drop(RStrip(s, drop)[|RStrip(s, drop)| - 1])
  {
    if s != [] && drop(s[|s| - 1]) {
      RStripIs(s[..|s| - 1], drop);
      var k :| 0 <= k <= |s| - 1 && RStrip(s[..|s| - 1], drop) == s[..|s| - 1][..k];
      assert s[..|s| - 1][..k] == s[..k];
    } else {
      assert s[..|s|] == s;
    }
  }

  lemma SliceOfSuffix(s: string, i: nat, k: nat)
    requires i + k <= |s|
    ensures s[i..][..k] == s[i..i + k]
  {
  }

  /** Stripping yields a trimmed slice of the original. */
  lemma StripTrims(s: string, drop: char -> bool)
    ensures Trimmed(Strip(s, drop), drop)
    ensures exists i, j :: 0 <= i <= j <= |s| && Strip(s, drop) == s[i..j]
  {
    hide LStrip, RStrip;
    LStripIs(s, drop);
    var l := LStrip(s, drop);
    RStripIs(l, drop);
    var i :| 0 <= i <= |s| && l == s[i..];
    var k :| 0 <= k <= |l| && RStrip(l, drop) == l[..k];
    SliceOfSuffix(s, i, k);
  }

  lemma TrimmedStrip(s: string, drop: char -> bool)
    requires Trimmed(s, drop)
    ensures Strip(s, drop) == s
  {
  }

  // ------------------------------------------------------- split and join

  /** Put `c` in front of the first part. */
  function Prepend(c: char, parts: seq<string>): (longer: seq<string>)
    requires parts != []
    ensures longer != []
  {
    [[c] + parts[0]] + parts[1..]
  }

  /** `s.split(sep)` for a non-empty separator. */
  function Split(s: string, sep: string): (parts: seq<string>)
    requires sep != ""
    ensures parts != []
    decreases |s|
  {
    if sep <= s then [""] + Split(s[|sep|..], sep)
    else if s == "" then [""]
    else Prepend(s[0], Split(s[1..], sep))
  }

  function Join(parts: seq<string>, sep: string): string {
    if parts == [] then ""
    else if |parts| == 1 then parts[0]
    else parts[0] + sep + Join(parts[1..], sep)
  }

  lemma JoinPrepend(c: char, parts: seq<string>, sep: string)
    requires parts != []
    ensures Join(Prepend(c, parts), sep) == [c] + Join(parts, sep)
  {
    assert Prepend(c, parts)[1..] == parts[1..];
  }

  lemma SplitHere(rest: string, sep: string)
    requires sep != ""
    ensures Split(sep + rest, sep) == [""] + Split(rest, sep)
  {
    assert (sep + rest)[|sep|..] == rest;
  }

  lemma SplitLater(c: char, rest: string, sep: string)
    requires sep != "" && !(sep <= [c] + rest)
    ensures Split([c] + rest, sep) == Prepend(c, Split(rest, sep))
  {
    assert ([c] + rest)[1..] == rest;
  }

  lemma SplitEmpty(sep: string)
    requires sep != ""
    ensures Split("", sep) == [""]
  {
  }

  lemma JoinFirst(first: string, rest: seq<string>, sep: string)
    requires rest != []
    ensures Join([first] + rest, sep) == first + sep + Join(rest, sep)
  {
    assert ([first] + rest)[1..] == rest;
  }

  lemma {:induction false} JoinSplit(s: string, sep: string)
    requires sep != ""
    ensures Join(Split(s, sep), sep) == s
    decreases |s|
  {
    hide Split, Join, Prepend;
    if sep <= s {
      var rest := s[|sep|..];
      JoinSplit(rest, sep);
      SplitHere(rest, sep);
      JoinFirst("", Split(rest, sep), sep);
      assert s == sep + rest && "" + sep + rest == sep + rest;
    } else if s == "" {
      SplitEmpty(sep);
      JoinOne("", sep);
    } else {
      var c, rest := s[0], s[1..];
      JoinSplit(rest, sep);
      assert s == [c] + rest;
      SplitLater(c, rest, sep);
      JoinPrepend(c, Split(rest, sep), sep);
    }
  }

  lemma JoinOne(part: string, sep: string)
    ensures Join([part], sep) == part
  {
  }

  lemma {:induction false} JoinConcat(a: seq<string>, b: seq<string>, sep: string)
    requires a != [] && b != []
    ensures Join(a + b, sep) == Join(a, sep) + sep + Join(b, sep)
  {
    hide Join;
    var first, rest := a[0], a[1..];
    assert a == [first] + rest && a + b == [first] + (rest + b);
    JoinFirst(first, rest + b, sep);
    if rest == [] {
      JoinOne(first, sep);
      assert a == [first] && rest + b == b;
    } else {
      JoinConcat(rest, b, sep);
      JoinFirst(first, rest, sep);
    }
  }

  /** No occurrence of `sep` that starts inside `a` reaches past its end when `sep` follows. */
  predicate Settled(a: string, sep: string) {
    forall k :: 0 <= k < |a| && sep <= (a + sep)[k..] ==> k + |sep| <= |a|
  }

  /** Splitting distributes over a separator that no other occurrence straddles. */
  lemma {:induction false} SplitConcat(a: string, b: string, sep: string)
    requires sep != "" && Settled(a, sep)
    ensures Split(a + sep + b, sep) == Split(a, sep) + Split(b, sep)
    decreases |a|
  {
    hide Split, Prepend, Settled;
    if a == "" {
      SplitEmpty(sep);
      SplitHere(b, sep);
      assert a + sep + b == sep + b;
    } else {
      SettledHead(a, b, sep);
      if sep <= a {
        var rest := a[|sep|..];
        SettledTail(a, sep, |sep|);
        SplitConcat(rest, b, sep);
        SplitHere(rest, sep);
        SplitHere(rest + sep + b, sep);
        assert a == sep + rest && a + sep + b == sep + (rest + sep + b);
      } else {
        var c, rest := a[0], a[1..];
        SettledTail(a, sep, 1);
        SplitConcat(rest, b, sep);
        assert a == [c] + rest && a + sep + b == [c] + (rest + sep + b);
        SplitLater(c, rest, sep);
        SplitLater(c, rest + sep + b, sep);
        PrependConcat(c, Split(rest, sep), Split(b, sep));
      }
    }
  }

  lemma PrependConcat(c: char, x: seq<string>, y: seq<string>)
    requires x != []
    ensures Prepend(c, x + y) == Prepend(c, x) + y
  {
  }

  lemma SettledHead(a: string, b: string, sep: string)
    requires sep != "" && a != "" && Settled(a, sep)
    ensures sep <= a + sep + b <==> sep <= a
  {
    assert (a + sep)[0..] == a + sep;
    assert (a + sep + b)[..|sep|] == (a + sep)[..|sep|];
    if sep <= a + sep + b {
      assert sep <= (a + sep)[0..];
      assert (a + sep)[..|sep|] == a[..|sep|];
    }
  }

  lemma SettledTail(a: string, sep: string, n: nat)
    requires Settled(a, sep) && n <= |a|
    ensures Settled(a[n..], sep)
  {
    forall k | 0 <= k < |a[n..]| && sep <= (a[n..] + sep)[k..]
      ensures k + |sep| <= |a[n..]|
    {
      assert (a[n..] + sep)[k..] == (a + sep)[n + k..];
    }
  }

  lemma SettledSingle(a: string, sep: string)
    requires |sep| == 1
    ensures Settled(a, sep)
  {
  }

  lemma {:induction false} SplitWhole(s: string, sep: string)
    requires sep != "" && !Contains(s, sep)
    ensures Split(s, sep) == [s]
    decreases |s|
  {
    assert s[0..] == s;
    if s != "" {
      SliceClean(s, sep, 1, |s|);
      assert s[1..|s|] == s[1..];
      SplitWhole(s[1..], sep);
      assert [s[0]] + s[1..] == s;
    }
  }

  lemma {:induction false} FirstPartPrefix(s: string, sep: string)
    requires sep != ""
    ensures Split(s, sep)[0] <= s
    decreases |s|
  {
    if s != "" && !(sep <= s) {
      FirstPartPrefix(s[1..], sep);
    }
  }

  lemma {:induction false} PartsClean(s: string, sep: string, i: nat)
    requires sep != "" && i < |Split(s, sep)|
    ensures !Contains(Split(s, sep)[i], sep)
    decreases |s|
  {
    if sep <= s {
      if i > 0 {
        PartsClean(s[|sep|..], sep, i - 1);
      }
    } else if s != "" {
      PartsClean(s[1..], sep, i);
      if i == 0 {
        FirstPartPrefix(s, sep);
        FirstClean(s, sep, Split(s, sep)[0]);
      }
    }
  }

  lemma FirstClean(s: string, sep: string, part: string)
    requires part != "" && part <= s && !(sep <= s) && !Contains(part[1..], sep)
    ensures !Contains(part, sep)
  {
    forall k | 0 <= k <= |part|
      ensures !(sep <= part[k..])
    {
      if k > 0 {
        assert part[k..] == part[1..][k - 1..];
      } else {
        assert part[0..] == part;
      }
    }
  }

  /** A slice of a clean string is clean. */
  lemma SliceClean(s: string, sep: string, i: nat, j: nat)
    requires i <= j <= |s| && !Contains(s, sep)
    ensures !Contains(s[i..j], sep)
  {
    forall k | 0 <= k <= |s[i..j]|
      ensures !(sep <= s[i..j][k..])
    {
      assert s[i..j][k..] <= s[i + k..];
    }
  }
}
