/**
 Exactly when command repair is the token-by-token map, for a command with one
 mistyped token, and two commands on which it is not.
 */
module RepairExactness {
  import opened Options
  import opened PyText
  import opened PathNames
  import opened CommandText
  import opened ContractRepair

  /** `t`, to be replaced by `m`, is the only token to fix; other tokens may contain it. */
  predicate Sole(tracked: seq<string>, near: Near, words: seq<string>, t: string, m: string) {
    && (exists w <- words :: Token(w) == t)
    && (forall w <- words :: Fix(tracked, near, w) == if Token(w) == t then Some(m) else None)
  }

  /** No other token contains `t`. */
  predicate NotInside(words: seq<string>, t: string) {
    forall w <- words :: Token(w) == t || !Contains(Token(w), t)
  }

  function Occurrences(words: seq<string>, t: string): nat {
    if words == [] then 0
    else Occurrences(words[..|words| - 1], t) + if Token(words[|words| - 1]) == t then 1 else 0
  }

  lemma ContainsIn(a: string, part: string, b: string, t: string)
    requires Contains(part, t)
    ensures Contains(a + part + b, t)
  {
    var k :| 0 <= k <= |part| && t <= part[k..];
    assert (a + part + b)[|a| + k..] == part[k..] + b;
  }

  // ------------------------------------------- replacing never comes back

  /** `r` lies past `s` in the direction in which `m` lies past `t`: by length or, at equal length, by code points. */
  predicate Past(t: string, m: string, s: string, r: string) {
    if |t| < |m| then |s| < |r|
    else if |m| < |t| then |r| < |s|
    else |s| == |r| && if Before(t, m) then Before(s, r) else Before(r, s)
  }

  lemma PastTransitive(t: string, m: string, a: string, b: string, c: string)
    requires Past(t, m, a, b) && Past(t, m, b, c)
    ensures Past(t, m, a, c)
  {
    hide Before;
    if |t| == |m| {
      if Before(t, m) {
        BeforeTransitive(a, b, c);
      } else {
        BeforeTransitive(c, b, a);
      }
    }
  }

  lemma NeverPastItself(t: string, m: string, s: string)
    ensures !Past(t, m, s, s)
  {
    BeforeIrreflexive(s);
  }

  lemma {:induction false} BeforeExtends(a: string, b: string, x: string, y: string)
    requires |a| == |b| && Before(a, b)
    ensures Before(a + x, b + y)
  {
    if a[0] == b[0] {
      BeforeExtends(a[1..], b[1..], x, y);
      assert (a + x)[1..] == a[1..] + x && (b + y)[1..] == b[1..] + y;
    }
  }

  /** What follows the replaced text does not matter, unless it goes the other way. */
  lemma PastFront(t: string, m: string, rest: string, after: string)
    requires t != m && (after == rest || Past(t, m, rest, after))
    ensures Past(t, m, t + rest, m + after)
  {
    hide Before;
    if |t| == |m| {
      BeforeTotal(t, m);
      if Before(t, m) {
        BeforeExtends(t, m, rest, after);
      } else {
        BeforeExtends(m, t, after, rest);
      }
    }
  }

  lemma PastTail(t: string, m: string, c: char, rest: string, after: string)
    requires Past(t, m, rest, after)
    ensures Past(t, m, [c] + rest, [c] + after)
  {
    assert ([c] + rest)[1..] == rest && ([c] + after)[1..] == after;
  }

  /** Replacing `t` by another text always moves a text that contains it the same way, so it can never return. */
  lemma {:induction false} ReplaceMoves(s: string, t: string, m: string)
    requires t != "" && t != m
    ensures if Contains(s, t) then Past(t, m, s, Replace(s, t, m)) else Replace(s, t, m) == s
    decreases |s|
  {
    hide Past, Replace, Contains;
    if !Contains(s, t) {
      ReplaceAbsent(s, t, m);
    } else if t <= s {
      var rest := s[|t|..];
      ReplaceMoves(rest, t, m);
      PastFront(t, m, rest, Replace(rest, t, m));
      assert s == t + rest;
      ReplaceHere(rest, t, m);
    } else {
      ContainedLater(s, t);
      var c, rest := s[0], s[1..];
      ReplaceMoves(rest, t, m);
      PastTail(t, m, c, rest, Replace(rest, t, m));
      assert s == [c] + rest;
      ReplaceLater(c, rest, t, m);
    }
  }

  lemma ContainedLater(s: string, t: string)
    requires Contains(s, t) && !(t <= s)
    ensures s != "" && Contains(s[1..], t)
  {
    var k :| 0 <= k <= |s| && t <= s[k..];
    assert s[0..] == s;
    assert s[k..] == s[1..][k - 1..];
  }

  // --------------------------------------------------- the token, repeated

  /** A quoted token becomes its match, and with `t` inside that match moves on past it at each repetition. */
  lemma {:induction false} TokenMoves(
      tracked: seq<string>, near: Near, words: seq<string>, n: nat, t: string, m: string,
      s: string, open: string, close: string) returns (v: string)
    requires Sole(tracked, near, words, t, m) && n <= |words| && t != "" && t != m && Trimmed(t, IsQuote)
    requires Contains(m, t)
    requires s == open + t + close && AllQuotes(open) && AllQuotes(close)
    ensures Rebuild(s, tracked, near, words[..n]) == open + v + close
    ensures var c := Occurrences(words[..n], t);
      if c == 0 then v == t else if c == 1 then v == m else Past(t, m, m, v)
  {
    hide LooksLikePath, Known, Normalized, Token, Contains, AllQuotes, Trimmed, Fix, Past;
    if n == 0 {
      v := t;
    } else {
      var u := TokenMoves(tracked, near, words, n - 1, t, m, s, open, close);
      assert words[..n][..n - 1] == words[..n - 1];
      var word := words[n - 1];
      assert word in words;
      if Token(word) == t {
        v := Replace(u, t, m);
        ReplaceQuoted(open, u, close, t, m);
        ReplaceSelf(t, m);
        ReplaceMoves(u, t, m);
        if Past(t, m, m, u) && v != u {
          PastTransitive(t, m, m, u, v);
        }
      } else {
        v := u;
      }
    }
  }

  lemma {:induction false} TwoOccurrences(words: seq<string>, t: string, i: nat, j: nat)
    requires i < j < |words| && Token(words[i]) == t && Token(words[j]) == t
    ensures 1 < Occurrences(words, t)
  {
    hide Token;
    var n := |words| - 1;
    if j < n {
      TwoOccurrences(words[..n], t, i, j);
    } else {
      OneOccurrence(words[..n], t, i);
    }
  }

  lemma {:induction false} OneOccurrence(words: seq<string>, t: string, i: nat)
    requires i < |words| && Token(words[i]) == t
    ensures 0 < Occurrences(words, t)
  {
    hide Token;
    var n := |words| - 1;
    if i < n {
      OneOccurrence(words[..n], t, i);
    }
  }

  lemma LongerThanPart(m: string, t: string)
    requires Contains(m, t) && m != t
    ensures |t| < |m|
  {
    var k :| 0 <= k <= |m| && t <= m[k..];
    assert m[0..] == m;
  }

  predicate Repeats(words: seq<string>, t: string) {
    exists i, j :: 0 <= i < j < |words| && Token(words[i]) == t && Token(words[j]) == t
  }

  lemma SoleApart(tracked: seq<string>, near: Near, words: seq<string>, t: string, m: string)
    requires Sole(tracked, near, words, t, m) && NotInside(words, t) && (!Repeats(words, t) || !Contains(m, t))
    ensures Apart(tracked, near, words)
  {
    hide LooksLikePath, Known, Normalized, Token, Contains, Fix;
    forall i, j | 0 <= i < |words| && 0 <= j < |words| && i != j && Fix(tracked, near, words[i]).Some?
      ensures Token(words[i]) == t && (Token(words[j]) == t ==> Repeats(words, t))
    {
      assert words[i] in words;
    }
  }

  lemma RepeatBreaks(tracked: seq<string>, near: Near, words: seq<string>, t: string, m: string, i: nat)
    requires forall w <- words :: IsWord(w)
    requires Sole(tracked, near, words, t, m) && t != m && Repeats(words, t) && Contains(m, t)
    requires i < |words| && Token(words[i]) == t
    ensures !Rewritten(tracked, near, words[i], Rebuild(words[i], tracked, near, words))
  {
    hide LooksLikePath, Known, Normalized, Token, Contains, Rebuild, IsWord;
    assert words[i] in words;
    FixedTokens(tracked, near, words[i]);
    TokenNotEmpty(tracked, near, words[i]);
    LongerThanPart(m, t);
    var a, b :| 0 <= a < b < |words| && Token(words[a]) == t && Token(words[b]) == t;
    TwoOccurrences(words, t, a, b);
    var open, close := TokenSplits(words[i]);
    var v := TokenMoves(tracked, near, words, |words|, t, m, words[i], open, close);
    assert words[..|words|] == words;
  }

  // ------------------------------------- the token inside another token

  /** A text that contains `t` is changed by the first word with that token, and never changes back. */
  lemma {:induction false} WordMoves(
      tracked: seq<string>, near: Near, words: seq<string>, n: nat, t: string, m: string, s: string)
    requires Sole(tracked, near, words, t, m) && n <= |words| && t != "" && t != m && Contains(s, t)
    ensures var r := Rebuild(s, tracked, near, words[..n]);
      if Occurrences(words[..n], t) == 0 then r == s else Past(t, m, s, r)
  {
    hide LooksLikePath, Known, Normalized, Token, Contains, Fix, Past;
    if n > 0 {
      WordMoves(tracked, near, words, n - 1, t, m, s);
      assert words[..n][..n - 1] == words[..n - 1];
      var word, u := words[n - 1], Rebuild(s, tracked, near, words[..n - 1]);
      assert word in words;
      if Token(word) == t {
        ReplaceMoves(u, t, m);
        if Past(t, m, s, u) && Replace(u, t, m) != u {
          PastTransitive(t, m, s, u, Replace(u, t, m));
        }
      }
    }
  }

  lemma InsideBreaks(tracked: seq<string>, near: Near, words: seq<string>, t: string, m: string, i: nat)
    requires Sole(tracked, near, words, t, m) && t != m
    requires i < |words| && Token(words[i]) != t && Contains(Token(words[i]), t)
    ensures !Rewritten(tracked, near, words[i], Rebuild(words[i], tracked, near, words))
  {
    hide LooksLikePath, Known, Normalized, Token, Contains, Rebuild, Past;
    var j :| 0 <= j < |words| && Token(words[j]) == t;
    assert words[j] in words && words[i] in words;
    TokenNotEmpty(tracked, near, words[j]);
    OneOccurrence(words, t, j);
    var open, close := TokenSplits(words[i]);
    ContainsIn(open, Token(words[i]), close, t);
    WordMoves(tracked, near, words, |words|, t, m, words[i]);
    assert words[..|words|] == words;
    NeverPastItself(t, m, words[i]);
  }

  // ------------------------------------------ a token that is its own match

  lemma {:induction false} ReplaceBySelf(s: string, t: string)
    requires t != ""
    ensures Replace(s, t, t) == s
    decreases |s|
  {
    hide Replace;
    if s == "" {
      ReplaceEmpty(t, t);
    } else if t <= s {
      ReplaceBySelf(s[|t|..], t);
      ReplaceHere(s[|t|..], t, t);
      assert s == t + s[|t|..];
    } else {
      ReplaceBySelf(s[1..], t);
      assert s == [s[0]] + s[1..];
      ReplaceLater(s[0], s[1..], t, t);
    }
  }

  lemma {:induction false} NothingMoves(s: string, tracked: seq<string>, near: Near, words: seq<string>, t: string)
    requires forall w <- words :: Fix(tracked, near, w).Some? ==> Token(w) == t && Fix(tracked, near, w).value == t
    ensures Rebuild(s, tracked, near, words) == s
  {
    hide Token, Fix;
    if words != [] {
      NothingMoves(s, tracked, near, words[..|words| - 1], t);
      assert words[|words| - 1] in words;
      if t != "" {
        ReplaceBySelf(s, t);
      }
    }
  }

  lemma SelfRewritten(tracked: seq<string>, near: Near, words: seq<string>, t: string, i: nat)
    requires Sole(tracked, near, words, t, t) && i < |words|
    ensures Rewritten(tracked, near, words[i], Rebuild(words[i], tracked, near, words))
  {
    hide Token, Fix, Rebuild, AllQuotes;
    NothingMoves(words[i], tracked, near, words, t);
    assert words[i] in words;
    var open, close := TokenSplits(words[i]);
  }

  /** The token is its own match, or is found nowhere but where it stands. */
  predicate Undisturbed(words: seq<string>, t: string, m: string) {
    t == m || (NotInside(words, t) && (!Repeats(words, t) || !Contains(m, t)))
  }

  /**
   For a command with one mistyped token, repair is the token-by-token map if and
   only if the token is its own match, or no other token contains it and it does
   not repeat or does not occur inside its match.
   */
  lemma SoleTokenwiseIff(tracked: seq<string>, near: Near, command: string, t: string, m: string)
    requires Sole(tracked, near, Parse(command).words, t, m) && Clean(m)
    ensures Tokenwise(tracked, near, command) <==> Undisturbed(Parse(command).words, t, m)
  {
    hide LooksLikePath, Known, Normalized, Token, Contains, Rebuild, IsWord, Parse, Apart, Rewritten, RepairCommand, Clean;
    var words := Parse(command).words;
    RepairedLine(tracked, near, command);
    if t == m {
      forall i | 0 <= i < |words| ensures Rewritten(tracked, near, words[i], Rebuild(words[i], tracked, near, words)) {
        SelfRewritten(tracked, near, words, t, i);
      }
    } else if Undisturbed(words, t, m) {
      SoleApart(tracked, near, words, t, m);
      RepairIsTokenwise(tracked, near, command);
    } else if !NotInside(words, t) {
      var i :| 0 <= i < |words| && Token(words[i]) != t && Contains(Token(words[i]), t);
      InsideBreaks(tracked, near, words, t, m, i);
    } else {
      var i :| 0 <= i < |words| && Token(words[i]) == t;
      RepeatBreaks(tracked, near, words, t, m, i);
    }
  }

  // --------------------------------------------------------- two failing inputs

  lemma TwoWords(a: string, b: string)
    requires IsWord(a) && IsWord(b)
    ensures Parse(a + " " + b).words == [a, b]
  {
    var gaps, words := ["", " ", ""], [a, b];
    assert gaps[1..] == [" ", ""] && gaps[1..][1..] == [""] && words[1..] == [b] && words[1..][1..] == [];
    assert Render([" ", ""], [b]) == " " + b + "";
    assert Render(gaps, words) == "" + a + (" " + b + "");
    assert Render(gaps, words) == a + " " + b;
    ParseRender(gaps, words);
  }

  lemma ReplaceTwo(a: string, b: string, t: string, m: string)
    requires IsWord(t)
    ensures Replace(a + " " + b, t, m) == Replace(a, t, m) + " " + Replace(b, t, m)
  {
    assert a + " " + b == a + (" " + b);
    ReplaceWord(a, " " + b, t, m);
    ReplaceGap(" ", b, t, m);
  }

  lemma RebuildTwo(s: string, tracked: seq<string>, near: Near, a: string, b: string)
    ensures Rebuild(s, tracked, near, [a, b]) == Rebuild(Rebuild(s, tracked, near, [a]), tracked, near, [b])
  {
    assert [a, b][..1] == [a] && [a][..0] == [] && [b][..0] == [];
  }

  lemma RebuildOne(s: string, tracked: seq<string>, near: Near, word: string)
    ensures Rebuild(s, tracked, near, [word])
         == if Fix(tracked, near, word).Some? && Token(word) != ""
            then Replace(s, Token(word), Fix(tracked, near, word).value) else s
  {
    assert [word][..0] == [];
  }

  lemma Mistyped(tracked: seq<string>, near: Near)
    requires tracked == ["a.py"] && near("a.p") == Some("a.py")
    ensures Token("a.p") == "a.p" && Fix(tracked, near, "a.p") == Some("a.py")
  {
    assert Normalized("a.p") == "a.p";
    assert LooksLikePath("a.p") by {
      assert "a.p"[0] == 'a' && "a.p"[1] == '.';
    }
  }

  lemma Selector(tracked: seq<string>, near: Near)
    requires near("a.p::t") == None
    ensures IsWord("a.p::t") && Fix(tracked, near, "a.p::t") == None
  {
    assert Normalized("a.p::t") == "a.p::t" && Token("a.p::t") == "a.p::t";
  }

  lemma AfterMatch(rest: string)
    requires 'a' !in rest
    ensures Replace("a.p" + rest, "a.p", "a.py") == "a.py" + rest
  {
    forall k | 0 <= k <= |rest| ensures !("a.p" <= rest[k..]) {
      assert k < |rest| ==> rest[k] in rest;
    }
    assert ("a.p" + rest)[3..] == rest;
    ReplaceAbsent(rest, "a.p", "a.py");
  }

  lemma ReplacedTwice()
    ensures Replace(Replace("a.p a.p", "a.p", "a.py"), "a.p", "a.py") == "a.pyy a.pyy"
  {
    hide Replace, IsSpace, IsWord;
    Blankless();
    AfterMatch("");
    AfterMatch("y");
    ReplaceTwo("a.p", "a.p", "a.p", "a.py");
    ReplaceTwo("a.py", "a.py", "a.p", "a.py");
    assert "a.p" + "" == "a.p" && "a.py" + "" == "a.py";
    assert "a.p" + "y" == "a.py" && "a.py" + "y" == "a.pyy";
    assert "a.p" + " " + "a.p" == "a.p a.p" && "a.py" + " " + "a.py" == "a.py a.py";
  }

  /** A repeated token inside its own match is replaced twice over. */
  lemma RepeatedTokenCorrupts(tracked: seq<string>, near: Near)
    requires tracked == ["a.py"] && near("a.p") == Some("a.py")
    ensures RepairCommand(tracked, near, "a.p a.p") == "a.pyy a.pyy"
  {
    hide Token, Fix, Parse, Replace, Rebuild, IsSpace, IsWord;
    var t := "a.p";
    Blankless();
    Mistyped(tracked, near);
    TwoWords(t, t);
    assert t + " " + t == "a.p a.p";
    RebuildTwo("a.p a.p", tracked, near, t, t);
    RebuildOne("a.p a.p", tracked, near, t);
    RebuildOne(Replace("a.p a.p", t, "a.py"), tracked, near, t);
    ReplacedTwice();
  }

  lemma ReplacedThere()
    ensures Replace("a.p a.p::t", "a.p", "a.py") == "a.py a.py::t"
  {
    hide Replace, IsSpace;
    assert IsWord("a.p") by { Blankless(); }
    ReplaceTwo("a.p", "a.p::t", "a.p", "a.py");
    AfterMatch("");
    AfterMatch("::t");
    assert "a.p" + "" == "a.p" && "a.py" + "" == "a.py";
    assert "a.p" + "::t" == "a.p::t" && "a.py" + "::t" == "a.py::t";
    assert "a.p" + " " + "a.p::t" == "a.p a.p::t" && "a.py" + " " + "a.py::t" == "a.py a.py::t";
  }

  lemma Blankless()
    ensures IsWord("a.p") && IsWord("a.p::t")
  {
  }

  /** A mistyped token inside another word's token, which needs no repair, is replaced there too. */
  lemma InsideTokenCorrupts(tracked: seq<string>, near: Near)
    requires tracked == ["a.py"] && near("a.p") == Some("a.py") && near("a.p::t") == None
    ensures RepairCommand(tracked, near, "a.p a.p::t") == "a.py a.py::t"
  {
    hide Token, Fix, Parse, Replace, Rebuild, IsSpace, IsWord;
    var other := "a.p::t";
    Blankless();
    Mistyped(tracked, near);
    Selector(tracked, near);
    TwoWords("a.p", other);
    assert "a.p" + " " + other == "a.p a.p::t";
    RebuildTwo("a.p a.p::t", tracked, near, "a.p", other);
    RebuildOne("a.p a.p::t", tracked, near, "a.p");
    ReplacedThere();
    RebuildOne("a.py a.py::t", tracked, near, other);
  }
}
