/**
 Command lines as blanks and words, and what repeated `str.replace` over the
 whole line does to each word.
 */
module CommandText {
  import opened PyText

  /** `s.replace(old, new)` for a non-empty `old`: leftmost, non-overlapping. */
  function Replace(s: string, old_: string, new_: string): string
    requires old_ != ""
    decreases |s|
  {
    if s == "" then ""
    else if old_ <= s then new_ + Replace(s[|old_|..], old_, new_)
    else [s[0]] + Replace(s[1..], old_, new_)
  }

  predicate NoSpace(s: string) {
    forall c <- s :: !IsSpace(c)
  }

  predicate AllSpace(s: string) {
    forall c <- s :: IsSpace(c)
  }

  predicate IsWord(s: string) {
    s != "" && NoSpace(s)
  }

  /** A line as `gaps[0] words[0] gaps[1] ... gaps[n]`: inner gaps are non-empty blanks. */
  datatype Line = Line(gaps: seq<string>, words: seq<string>) {
    predicate Valid() {
      && |gaps| == |words| + 1
      && (forall g <- gaps :: AllSpace(g))
      && (forall i :: 0 < i < |words| ==> gaps[i] != "")
      && (forall w <- words :: IsWord(w))
    }
  }

  function Render(gaps: seq<string>, words: seq<string>): string
    requires |gaps| == |words| + 1
  {
    if words == [] then gaps[0] else gaps[0] + words[0] + Render(gaps[1..], words[1..])
  }

  function GapLen(s: string): (n: nat)
    ensures n <= |s| && AllSpace(s[..n]) && (n < |s| ==> !IsSpace(s[n]))
  {
    if s == "" || !IsSpace(s[0]) then 0 else 1 + GapLen(s[1..])
  }

  function WordLen(s: string): (n: nat)
    ensures n <= |s| && NoSpace(s[..n]) && (n < |s| ==> IsSpace(s[n]))
  {
    if s == "" || IsSpace(s[0]) then 0 else 1 + WordLen(s[1..])
  }

  /** `s.split()`, keeping the blanks between the words. */
  function Parse(s: string): (line: Line)
    ensures |line.gaps| == |line.words| + 1
    decreases |s|
  {
    var g := GapLen(s);
    if g == |s| then Line([s], [])
    else
      var rest := s[g..];
      var n := WordLen(rest);
      var tail := Parse(rest[n..]);
      Line([s[..g]] + tail.gaps, [rest[..n]] + tail.words)
  }

  lemma {:induction false} ParseValid(s: string)
    ensures Parse(s).Valid()
    ensures Parse(s).words != [] && s != "" && IsSpace(s[0]) ==> Parse(s).gaps[0] != ""
    decreases |s|
  {
    var g := GapLen(s);
    if g < |s| {
      var rest := s[g..];
      var n := WordLen(rest);
      ParseValid(rest[n..]);
      ParsedConsValid(s[..g], rest[..n], Parse(rest[n..]));
    }
  }

  lemma ParsedConsValid(gap: string, word: string, tail: Line)
    requires AllSpace(gap) && IsWord(word) && tail.Valid()
    requires tail.words != [] ==> tail.gaps[0] != ""
    ensures Line([gap] + tail.gaps, [word] + tail.words).Valid()
  {
    var line := Line([gap] + tail.gaps, [word] + tail.words);
    forall i | 0 < i < |line.words| ensures line.gaps[i] != "" {
      assert line.gaps[i] == tail.gaps[i - 1];
    }
  }

  /** What is left of the line after its first gap and word. */
  function AfterWord(s: string): (tail: string)
    ensures GapLen(s) < |s| ==> |tail| < |s|
  {
    var rest := s[GapLen(s)..];
    rest[WordLen(rest)..]
  }

  lemma ParseUnfold(s: string) returns (gap: string, word: string)
    ensures GapLen(s) == |s| ==> Parse(s) == Line([s], [])
    ensures GapLen(s) < |s| ==>
      && s == gap + word + AfterWord(s)
      && Parse(s) == Line([gap] + Parse(AfterWord(s)).gaps, [word] + Parse(AfterWord(s)).words)
  {
    hide IsSpace, AllSpace, NoSpace;
    gap := s[..GapLen(s)];
    var rest := s[GapLen(s)..];
    word := rest[..WordLen(rest)];
    assert s == gap + rest && rest == word + rest[WordLen(rest)..];
  }

  lemma {:induction false} RenderParse(s: string)
    ensures Render(Parse(s).gaps, Parse(s).words) == s
    decreases |s|
  {
    hide Parse, GapLen, WordLen, AfterWord, AllSpace, NoSpace;
    var gap, word := ParseUnfold(s);
    if GapLen(s) < |s| {
      RenderParse(AfterWord(s));
      RenderCons(gap, word, Parse(AfterWord(s)));
    }
  }

  lemma RenderCons(gap: string, word: string, tail: Line)
    requires |tail.gaps| == |tail.words| + 1
    ensures Render([gap] + tail.gaps, [word] + tail.words) == gap + word + Render(tail.gaps, tail.words)
  {
    assert ([gap] + tail.gaps)[1..] == tail.gaps && ([word] + tail.words)[1..] == tail.words;
  }

  lemma {:induction false} GapLenIs(gap: string, rest: string)
    requires AllSpace(gap) && (rest != "" ==> !IsSpace(rest[0]))
    ensures GapLen(gap + rest) == |gap|
  {
    hide IsSpace;
    if gap == "" {
      assert gap + rest == rest;
    } else {
      assert gap[0] in gap;
      GapLenIs(gap[1..], rest);
      assert (gap + rest)[1..] == gap[1..] + rest;
    }
  }

  lemma {:induction false} WordLenIs(word: string, rest: string)
    requires NoSpace(word) && (rest != "" ==> IsSpace(rest[0]))
    ensures WordLen(word + rest) == |word|
  {
    hide IsSpace;
    if word == "" {
      assert word + rest == rest;
    } else {
      assert word[0] in word;
      WordLenIs(word[1..], rest);
      assert (word + rest)[1..] == word[1..] + rest;
    }
  }

  /** What follows a word is the end of the line or a blank. */
  lemma TailStarts(gaps: seq<string>, words: seq<string>)
    requires Line(gaps, words).Valid() && words != []
    ensures var tail := Render(gaps[1..], words[1..]);
      Line(gaps[1..], words[1..]).Valid() && (tail != "" ==> IsSpace(tail[0]))
  {
    var line := Line(gaps[1..], words[1..]);
    assert forall i :: 0 < i < |words| ==> words[i] == line.words[i - 1] && gaps[i] == line.gaps[i - 1];
    assert forall i :: 0 <= i < |line.words| ==> line.words[i] in words;
    assert gaps[1] in gaps;
  }

  lemma ParseGap(gap: string)
    requires AllSpace(gap)
    ensures Parse(gap) == Line([gap], [])
  {
    GapLenIs(gap, "");
    assert gap + "" == gap;
  }

  /** Parsing a well-formed line gives its words back. */
  lemma {:induction false} ParseRender(gaps: seq<string>, words: seq<string>)
    requires Line(gaps, words).Valid()
    ensures Parse(Render(gaps, words)) == Line(gaps, words)
  {
    hide Parse, GapLen, WordLen, IsSpace;
    if words == [] {
      assert gaps[0] in gaps;
      assert gaps == [gaps[0]];
      ParseGap(gaps[0]);
    } else {
      TailStarts(gaps, words);
      ParseRender(gaps[1..], words[1..]);
      var tail := Render(gaps[1..], words[1..]);
      assert gaps[0] in gaps && words[0] in words;
      GapLenIs(gaps[0], words[0] + tail);
      WordLenIs(words[0], tail);
      ParseStep(gaps[0], words[0], tail);
      assert [gaps[0]] + gaps[1..] == gaps && [words[0]] + words[1..] == words;
    }
  }

  lemma ParseStep(gap: string, word: string, tail: string)
    requires GapLen(gap + (word + tail)) == |gap| && word != "" && WordLen(word + tail) == |word|
    ensures Parse(gap + word + tail) == Line([gap] + Parse(tail).gaps, [word] + Parse(tail).words)
  {
    hide GapLen, WordLen, AllSpace, NoSpace;
    var s, rest := gap + word + tail, word + tail;
    assert s == gap + rest;
    assert s[..|gap|] == gap && s[|gap|..] == rest;
    assert rest[..|word|] == word && rest[|word|..] == tail;
  }

  // ------------------------------------------------------------ replacing

  lemma ReplaceHere(rest: string, t: string, m: string)
    requires t != ""
    ensures Replace(t + rest, t, m) == m + Replace(rest, t, m)
  {
    assert (t + rest)[|t|..] == rest;
  }

  lemma ReplaceLater(c: char, rest: string, t: string, m: string)
    requires t != "" && !(t <= [c] + rest)
    ensures Replace([c] + rest, t, m) == [c] + Replace(rest, t, m)
  {
    assert ([c] + rest)[1..] == rest;
  }

  lemma ReplaceEmpty(t: string, m: string)
    requires t != ""
    ensures Replace("", t, m) == ""
  {
  }

  lemma {:induction false} ReplaceGap(gap: string, rest: string, t: string, m: string)
    requires IsWord(t) && AllSpace(gap)
    ensures Replace(gap + rest, t, m) == gap + Replace(rest, t, m)
  {
    if gap == "" {
      assert gap + rest == rest;
    } else {
      assert gap[0] in gap && t[0] in t;
      assert (gap + rest)[1..] == gap[1..] + rest;
      ReplaceGap(gap[1..], rest, t, m);
    }
  }

  /** No occurrence of a blank-free text crosses from `a` into what follows. */
  lemma PrefixStays(a: string, rest: string, t: string)
    requires IsWord(t) && (rest != "" ==> IsSpace(rest[0]))
    ensures t <= a + rest <==> t <= a
  {
    hide IsSpace;
    assert |t| > |a| ==> t[|a|] in t;
    if t <= a + rest && |t| <= |a| {
      assert (a + rest)[..|t|] == a[..|t|];
    }
  }

  lemma {:induction false} ReplaceWord(word: string, rest: string, t: string, m: string)
    requires IsWord(t) && (rest != "" ==> IsSpace(rest[0]))
    ensures Replace(word + rest, t, m) == Replace(word, t, m) + Replace(rest, t, m)
    decreases |word|
  {
    hide IsSpace, NoSpace, Replace;
    PrefixStays(word, rest, t);
    if word == "" {
      assert word + rest == rest;
      ReplaceEmpty(t, m);
    } else if t <= word {
      var more := word[|t|..];
      ReplaceWord(more, rest, t, m);
      ReplaceHere(more, t, m);
      ReplaceHere(more + rest, t, m);
      assert word == t + more && word + rest == t + (more + rest);
    } else {
      var c, more := word[0], word[1..];
      ReplaceWord(more, rest, t, m);
      assert word == [c] + more && word + rest == [c] + (more + rest);
      ReplaceLater(c, more, t, m);
      ReplaceLater(c, more + rest, t, m);
    }
  }

  function ReplaceEach(words: seq<string>, t: string, m: string): (r: seq<string>)
    requires t != ""
    ensures |r| == |words|
  {
    seq(|words|, i requires 0 <= i < |words| => Replace(words[i], t, m))
  }

  /** Replacing over the whole line is replacing word by word. */
  lemma {:induction false} ReplaceLine(gaps: seq<string>, words: seq<string>, t: string, m: string)
    requires Line(gaps, words).Valid() && IsWord(t)
    ensures Replace(Render(gaps, words), t, m) == Render(gaps, ReplaceEach(words, t, m))
  {
    hide IsSpace;
    assert gaps[0] in gaps;
    if words == [] {
      ReplaceGap(gaps[0], "", t, m);
      assert gaps[0] + "" == gaps[0];
    } else {
      TailStarts(gaps, words);
      ReplaceLine(gaps[1..], words[1..], t, m);
      ReplaceFront(gaps[0], words[0], Render(gaps[1..], words[1..]), t, m);
      assert ReplaceEach(words, t, m)[1..] == ReplaceEach(words[1..], t, m);
    }
  }

  lemma ReplaceFront(gap: string, word: string, tail: string, t: string, m: string)
    requires IsWord(t) && AllSpace(gap) && (tail != "" ==> IsSpace(tail[0]))
    ensures Replace(gap + word + tail, t, m) == gap + Replace(word, t, m) + Replace(tail, t, m)
  {
    ReplaceWord(word, tail, t, m);
    ReplaceGap(gap, word + tail, t, m);
    assert gap + word + tail == gap + (word + tail);
  }

  lemma {:induction false} ReplaceAbsent(s: string, t: string, m: string)
    requires t != "" && !Contains(s, t)
    ensures Replace(s, t, m) == s
  {
    if s != "" {
      assert s[0..] == s;
      SliceClean(s, t, 1, |s|);
      assert s[1..|s|] == s[1..];
      ReplaceAbsent(s[1..], t, m);
    }
  }

  lemma ReplaceSelf(t: string, m: string)
    requires t != ""
    ensures Replace(t, t, m) == m
  {
  }

  lemma {:induction false} ReplaceStaysWord(s: string, t: string, m: string)
    requires t != "" && IsWord(m) && NoSpace(s)
    ensures NoSpace(Replace(s, t, m)) && (s != "" ==> Replace(s, t, m) != "")
    decreases |s|
  {
    if s != "" {
      if t <= s {
        ReplaceStaysWord(s[|t|..], t, m);
      } else {
        ReplaceStaysWord(s[1..], t, m);
      }
    }
  }

  // ------------------------------------------------------- quoted words

  predicate IsQuote(c: char) { c == '"' || c == '\'' }

  function Token(word: string): string {
    Strip(word, IsQuote)
  }

  predicate AllQuotes(s: string) {
    forall c <- s :: IsQuote(c)
  }

  /** A word is its token between quotes. */
  lemma TokenSplits(word: string) returns (open: string, close: string)
    ensures word == open + Token(word) + close && AllQuotes(open) && AllQuotes(close)
  {
    open := Leading(word);
    var rest := LStrip(word, IsQuote);
    close := Trailing(rest);
  }

  lemma {:induction false} Leading(s: string) returns (open: string)
    ensures s == open + LStrip(s, IsQuote) && AllQuotes(open)
  {
    if s != "" && IsQuote(s[0]) {
      var more := Leading(s[1..]);
      open := [s[0]] + more;
    } else {
      open := "";
    }
  }

  lemma {:induction false} Trailing(s: string) returns (close: string)
    ensures s == RStrip(s, IsQuote) + close && AllQuotes(close)
  {
    if s != "" && IsQuote(s[|s| - 1]) {
      var more := Trailing(s[..|s| - 1]);
      close := more + [s[|s| - 1]];
    } else {
      close := "";
    }
  }

  lemma {:induction false} LStripQuotes(open: string, s: string)
    requires AllQuotes(open) && (s != "" ==> !IsQuote(s[0]))
    ensures LStrip(open + s, IsQuote) == s
  {
    if open == "" {
      assert open + s == s;
    } else {
      assert open[0] in open;
      assert (open + s)[1..] == open[1..] + s;
      LStripQuotes(open[1..], s);
    }
  }

  lemma {:induction false} RStripQuotes(s: string, close: string)
    requires AllQuotes(close) && (s != "" ==> !IsQuote(s[|s| - 1]))
    ensures RStrip(s + close, IsQuote) == s
  {
    if close == "" {
      assert s + close == s;
    } else {
      assert close[|close| - 1] in close;
      assert (s + close)[..|s + close| - 1] == s + close[..|close| - 1];
      RStripQuotes(s, close[..|close| - 1]);
    }
  }

  /** The token of a quoted, non-empty text with no quote at its edges is that text. */
  lemma TokenOfQuoted(open: string, s: string, close: string)
    requires AllQuotes(open) && AllQuotes(close) && s != "" && Trimmed(s, IsQuote)
    ensures Token(open + s + close) == s
  {
    assert open + s + close == open + (s + close);
    LStripQuotes(open, s + close);
    RStripQuotes(s, close);
  }

  lemma {:induction false} ReplaceOpen(open: string, s: string, t: string, m: string)
    requires AllQuotes(open) && t != "" && !IsQuote(t[0])
    ensures Replace(open + s, t, m) == open + Replace(s, t, m)
  {
    if open == "" {
      assert open + s == s;
    } else {
      assert open[0] in open;
      assert (open + s)[1..] == open[1..] + s;
      ReplaceOpen(open[1..], s, t, m);
    }
  }

  lemma {:induction false} ReplaceClose(s: string, close: string, t: string, m: string)
    requires AllQuotes(close) && t != "" && Trimmed(t, IsQuote)
    ensures Replace(s + close, t, m) == Replace(s, t, m) + close
    decreases |s|
  {
    hide IsQuote, AllQuotes, Replace;
    if s == "" {
      ReplaceOpen(close, "", t, m);
      ReplaceEmpty(t, m);
      assert s + close == close && close + "" == close;
    } else {
      CloseStays(s, close, t);
      if t <= s {
        var rest := s[|t|..];
        ReplaceClose(rest, close, t, m);
        ReplaceHere(rest, t, m);
        ReplaceHere(rest + close, t, m);
        assert s == t + rest && s + close == t + (rest + close);
      } else {
        var c, rest := s[0], s[1..];
        ReplaceClose(rest, close, t, m);
        assert s == [c] + rest && s + close == [c] + (rest + close);
        ReplaceLater(c, rest, t, m);
        ReplaceLater(c, rest + close, t, m);
      }
    }
  }

  lemma CloseStays(s: string, close: string, t: string)
    requires AllQuotes(close) && t != "" && Trimmed(t, IsQuote)
    ensures t <= s + close <==> t <= s
  {
    if t <= s + close && |t| <= |s| {
      assert (s + close)[..|t|] == s[..|t|];
    }
  }

  /** Replacing a token acts inside the quotes. */
  lemma ReplaceQuoted(open: string, s: string, close: string, t: string, m: string)
    requires AllQuotes(open) && AllQuotes(close) && t != "" && Trimmed(t, IsQuote)
    ensures Replace(open + s + close, t, m) == open + Replace(s, t, m) + close
  {
    assert open + s + close == open + (s + close);
    ReplaceOpen(open, s + close, t, m);
    ReplaceClose(s, close, t, m);
  }
}
