/** Repairing a frozen contract no agent could satisfy: mistyped paths in commands, and no legal place for tests. */
module ContractRepair {
  import opened Options
  import opened PyText
  import opened CommandText

  // --------------------------------------------------------- command tokens

  predicate IsDigit(c: char) { '0' <= c <= '9' }

  predicate OnlyDigitsAndDots(s: string) {
    (exists c <- s :: IsDigit(c)) && forall c <- s :: IsDigit(c) || c == '.'
  }

  predicate LooksLikePath(token: string) {
    && !("-" <= token) && '=' !in token
    && (forall c <- "*$|><&" :: c !in token)
    && ('/' in token || '.' in token)
    && !OnlyDigitsAndDots(token)
  }

  predicate IsDotOrSlash(c: char) { c == '.' || c == '/' }

  /** `token.strip("./")`. */
  function Normalized(token: string): string {
    Strip(token, IsDotOrSlash)
  }

  /** `path.rsplit("/", 1)[0]`: everything before the last slash. */
  function DirName(path: string): (dir: string)
    requires '/' in path
    ensures dir + "/" <= path && '/' !in path[|dir| + 1..]
  {
    if path[|path| - 1] == '/' then path[..|path| - 1] else DirName(path[..|path| - 1])
  }

  predicate Known(tracked: seq<string>, path: string) {
    path in tracked || exists p <- tracked :: '/' in p && DirName(p) == path
  }

  // The close-match search, whatever it picks; what is assumed of a match is stated where it is used.
  type Near = string -> Option<string>

  /** The replacement this word's token calls for, if any. */
  function Fix(tracked: seq<string>, near: Near, word: string): Option<string> {
    var token := Token(word);
    if !LooksLikePath(token) || Known(tracked, Normalized(token)) then None else near(Normalized(token))
  }

  /** Something outside the digits and dots of a version number, or no digit at all. */
  predicate NoVersion(token: string) {
    (forall c <- token :: !('0' <= c <= '9')) || exists c <- token :: !('0' <= c <= '9') && c != '.'
  }

  /** `path` is the directory of a tracked file. */
  predicate HoldsFile(tracked: seq<string>, path: string) {
    exists p <- tracked :: path + "/" <= p && '/' !in p[|path| + 1..]
  }

  lemma LastSlash(p: string, i: nat, j: nat)
    requires i < |p| && p[i] == '/' && j < |p| && '/' !in p[j + 1..]
    ensures i <= j
  {
    forall k | j < k < |p| ensures p[k] in p[j + 1..] {
      assert p[j + 1..][k - j - 1] == p[k];
    }
  }

  lemma DirNameIff(p: string, path: string)
    ensures '/' in p && DirName(p) == path <==> path + "/" <= p && '/' !in p[|path| + 1..]
  {
    if path + "/" <= p && '/' !in p[|path| + 1..] {
      assert p[|path|] == '/';
      var dir := DirName(p);
      assert p[|dir|] == '/';
      LastSlash(p, |dir|, |path|);
      LastSlash(p, |path|, |dir|);
    }
  }

  lemma KnownIff(tracked: seq<string>, path: string)
    ensures Known(tracked, path) <==> path in tracked || HoldsFile(tracked, path)
  {
    hide DirName;
    forall p <- tracked ensures '/' in p && DirName(p) == path <==> path + "/" <= p && '/' !in p[|path| + 1..] {
      DirNameIff(p, path);
    }
  }

  lemma SymbolFree(token: string)
    ensures '=' !in token && (forall c <- "*$|><&" :: c !in token) <==> forall c <- token :: c !in "=*$|><&"
  {
    var symbols := "*$|><&";
    assert "=*$|><&" == "=" + symbols;
    assert forall c :: c in "=" + symbols <==> c == '=' || c in symbols;
  }

  /** Which words are repaired, on the characters of their tokens, and what the near match is looked up for. */
  lemma FixIff(tracked: seq<string>, near: Near, word: string)
    ensures var token := Strip(word, IsQuote); var name := Strip(token, IsDotOrSlash);
      Fix(tracked, near, word) ==
        if (token == "" || token[0] != '-') && (forall c <- token :: c !in "=*$|><&") && ('/' in token || '.' in token)
          && NoVersion(token) && name !in tracked && !HoldsFile(tracked, name)
        then near(name) else None
  {
    hide Strip, Known, HoldsFile;
    SymbolFree(Token(word));
    KnownIff(tracked, Normalized(Token(word)));
  }

  function Rebuild(s: string, tracked: seq<string>, near: Near, words: seq<string>): string {
    if words == [] then s
    else
      var before := Rebuild(s, tracked, near, words[..|words| - 1]);
      var word := words[|words| - 1];
      var fix := Fix(tracked, near, word);
      if fix.Some? && Token(word) != "" then Replace(before, Token(word), fix.value) else before
  }

  function Notes(tracked: seq<string>, near: Near, words: seq<string>): seq<string> {
    if words == [] then []
    else
      var word := words[|words| - 1];
      var fix := Fix(tracked, near, word);
      Notes(tracked, near, words[..|words| - 1]) +
      (if fix.Some? then [Token(word) + " -> " + fix.value] else [])
  }

  function RepairCommand(tracked: seq<string>, near: Near, command: string): string {
    Rebuild(command, tracked, near, Parse(command).words)
  }

  function RepairAll(tracked: seq<string>, near: Near, commands: seq<string>): (repaired: seq<string>)
    ensures |repaired| == |commands|
  {
    seq(|commands|, i requires 0 <= i < |commands| => RepairCommand(tracked, near, commands[i]))
  }

  function AllNotes(tracked: seq<string>, near: Near, commands: seq<string>): seq<string> {
    if commands == [] then []
    else
      AllNotes(tracked, near, commands[..|commands| - 1]) +
      Notes(tracked, near, Parse(commands[|commands| - 1]).words)
  }

  method RepairCommands(tracked: seq<string>, near: Near, commands: seq<string>)
    returns (repaired: Option<seq<string>>, notes: seq<string>)
    ensures notes == AllNotes(tracked, near, commands)
    ensures repaired == if notes == [] then None else Some(RepairAll(tracked, near, commands))
  {
    hide RepairCommand, Parse, Notes;
    var rebuiltAll: seq<string> := [];
    notes := [];
    var c := 0;
    while c < |commands|
      invariant 0 <= c <= |commands|
      invariant notes == AllNotes(tracked, near, commands[..c])
      invariant |rebuiltAll| == c
      invariant forall i :: 0 <= i < c ==> rebuiltAll[i] == RepairCommand(tracked, near, commands[i])
    {
      var rebuilt, found := RebuildCommand(tracked, near, commands[c]);
      rebuiltAll := rebuiltAll + [rebuilt];
      notes := notes + found;
      assert commands[..c + 1][..c] == commands[..c];
      c := c + 1;
    }
    assert commands[..c] == commands;
    assert rebuiltAll == RepairAll(tracked, near, commands);
    repaired := if notes == [] then None else Some(rebuiltAll);
  }

  /** One note for each word that is repaired, saying what it was and what it becomes. */
  lemma {:induction false} NotesAre(tracked: seq<string>, near: Near, words: seq<string>)
    ensures |Notes(tracked, near, words)| == |FixedAt(tracked, near, words)|
    ensures forall note :: note in Notes(tracked, near, words) <==>
      exists w <- words :: Fix(tracked, near, w).Some? && note == Token(w) + " -> " + Fix(tracked, near, w).value
    decreases |words|
  {
    hide Fix, Token;
    if words != [] {
      var n := |words| - 1;
      var front, last := words[..n], words[n];
      NotesAre(tracked, near, front);
      assert words == front + [last];
      assert FixedAt(tracked, near, words)
          == if Fix(tracked, near, last).Some? then FixedAt(tracked, near, front) + {n} else FixedAt(tracked, near, front);
    }
  }

  /** The positions of the words that are repaired. */
  function FixedAt(tracked: seq<string>, near: Near, words: seq<string>): set<int> {
    set i | 0 <= i < |words| && Fix(tracked, near, words[i]).Some?
  }

  lemma NoWords(s: string, tracked: seq<string>, near: Near)
    ensures Rebuild(s, tracked, near, []) == s && Notes(tracked, near, []) == []
  {
  }

  lemma RebuildNext(s: string, tracked: seq<string>, near: Near, words: seq<string>, i: nat)
    requires i < |words|
    ensures var fix, t, before := Fix(tracked, near, words[i]), Token(words[i]), Rebuild(s, tracked, near, words[..i]);
      && Rebuild(s, tracked, near, words[..i + 1])
           == (if fix.Some? && t != "" then Replace(before, t, fix.value) else before)
      && Notes(tracked, near, words[..i + 1])
           == Notes(tracked, near, words[..i]) + if fix.Some? then [t + " -> " + fix.value] else []
  {
    hide Fix, Token;
    assert words[..i + 1][..i] == words[..i];
  }

  method RebuildCommand(tracked: seq<string>, near: Near, command: string)
    returns (rebuilt: string, notes: seq<string>)
    ensures rebuilt == RepairCommand(tracked, near, command)
    ensures notes == Notes(tracked, near, Parse(command).words)
  {
    hide Rebuild, Notes, LooksLikePath, Known, Normalized, Token;
    var words := Parse(command).words;
    rebuilt, notes := command, [];
    NoWords(command, tracked, near);
    var i := 0;
    while i < |words|
      invariant 0 <= i <= |words|
      invariant rebuilt == Rebuild(command, tracked, near, words[..i])
      invariant notes == Notes(tracked, near, words[..i])
    {
      RebuildNext(command, tracked, near, words, i);
      var token := Token(words[i]);
      if LooksLikePath(token) && !Known(tracked, Normalized(token)) {
        var found := near(Normalized(token));
        if found.Some? {
          TokenNotEmpty(tracked, near, words[i]);
          rebuilt := Replace(rebuilt, token, found.value);
          notes := notes + [token + " -> " + found.value];
        }
      }
      i := i + 1;
    }
    assert words[..i] == words;
  }

  // ------------------------------------- what the replacements amount to

  /** A match that stays one word with the same quotes around it. */
  predicate Clean(match_: string) {
    IsWord(match_) && Trimmed(match_, IsQuote)
  }

  /** Every match these words call for is clean; other tracked paths do not matter. */
  predicate CleanMatches(tracked: seq<string>, near: Near, words: seq<string>) {
    forall w <- words :: Fix(tracked, near, w).Some? ==> Clean(Fix(tracked, near, w).value)
  }

  /** No match these words call for would itself be repaired. */
  predicate SettledMatches(tracked: seq<string>, near: Near, words: seq<string>) {
    forall w <- words :: Fix(tracked, near, w).Some? ==> Fix(tracked, near, Fix(tracked, near, w).value).None?
  }

  /** The word with its token replaced, quotes kept; untouched when there is nothing to fix. */
  ghost predicate Rewritten(tracked: seq<string>, near: Near, word: string, after: string) {
    var fix := Fix(tracked, near, word);
    if fix.None? then after == word
    else exists open, close ::
      && AllQuotes(open) && AllQuotes(close)
      && word == open + Token(word) + close && after == open + fix.value + close
  }

  /**
   No token to be replaced occurs inside a different token, or inside another
   word's replacement.  A token may repeat.
   */
  predicate Apart(tracked: seq<string>, near: Near, words: seq<string>) {
    forall i, j :: 0 <= i < |words| && 0 <= j < |words| && i != j && Fix(tracked, near, words[i]).Some? ==>
      && (Token(words[j]) == Token(words[i]) || !Contains(Token(words[j]), Token(words[i])))
      && (Fix(tracked, near, words[j]).Some? ==>
            !Contains(Fix(tracked, near, words[j]).value, Token(words[i])))
  }

  lemma FixedTokens(tracked: seq<string>, near: Near, word: string)
    requires IsWord(word) && Fix(tracked, near, word).Some?
    ensures IsWord(Token(word)) && Trimmed(Token(word), IsQuote)
  {
    StripTrims(word, IsQuote);
    assert Token(word) != "";
  }

  function RebuildEach(targets: seq<string>, tracked: seq<string>, near: Near, words: seq<string>): (r: seq<string>)
    ensures |r| == |targets|
  {
    seq(|targets|, i requires 0 <= i < |targets| => Rebuild(targets[i], tracked, near, words))
  }

  lemma {:induction false} RebuildStaysWord(s: string, tracked: seq<string>, near: Near, words: seq<string>)
    requires CleanMatches(tracked, near, words) && IsWord(s)
    ensures IsWord(Rebuild(s, tracked, near, words))
  {
    if words != [] {
      var front, word := words[..|words| - 1], words[|words| - 1];
      RebuildStaysWord(s, tracked, near, front);
      if Fix(tracked, near, word).Some? && Token(word) != "" {
        ReplaceStaysWord(Rebuild(s, tracked, near, front), Token(word), Fix(tracked, near, word).value);
      }
    }
  }

  lemma RebuiltValid(line: Line, tracked: seq<string>, near: Near, words: seq<string>)
    requires CleanMatches(tracked, near, words) && line.Valid()
    ensures Line(line.gaps, RebuildEach(line.words, tracked, near, words)).Valid()
  {
    forall w | w in RebuildEach(line.words, tracked, near, words) ensures IsWord(w) {
      var i :| 0 <= i < |line.words| && w == Rebuild(line.words[i], tracked, near, words);
      assert line.words[i] in line.words;
      RebuildStaysWord(line.words[i], tracked, near, words);
    }
  }

  /** Whatever the tokens, replacing over the line acts on each word by itself and leaves the blanks alone. */
  lemma {:induction false} RebuildLine(line: Line, tracked: seq<string>, near: Near, words: seq<string>)
    requires CleanMatches(tracked, near, words) && line.Valid()
    requires forall w <- words :: IsWord(w)
    ensures Rebuild(Render(line.gaps, line.words), tracked, near, words)
         == Render(line.gaps, RebuildEach(line.words, tracked, near, words))
  {
    if words == [] {
      assert RebuildEach(line.words, tracked, near, words) == line.words;
    } else {
      var front, word := words[..|words| - 1], words[|words| - 1];
      RebuildLine(line, tracked, near, front);
      var mid := RebuildEach(line.words, tracked, near, front);
      if Fix(tracked, near, word).Some? {
        FixedTokens(tracked, near, word);
        RebuiltValid(line, tracked, near, front);
        ReplaceLine(line.gaps, mid, Token(word), Fix(tracked, near, word).value);
        assert RebuildEach(line.words, tracked, near, words)
            == ReplaceEach(mid, Token(word), Fix(tracked, near, word).value);
      } else {
        assert RebuildEach(line.words, tracked, near, words) == mid;
      }
    }
  }

  // ------------------------------------------------- each word by itself

  /** What processing the first `n` words has made of word `j`'s token. */
  function Value(tracked: seq<string>, near: Near, words: seq<string>, n: nat, j: nat): string
    requires n <= |words| && j < |words|
  {
    var fix := Fix(tracked, near, words[j]);
    if fix.Some? && (exists i :: 0 <= i < n && Token(words[i]) == Token(words[j])) then fix.value
    else Token(words[j])
  }

  /** One replacement takes the token of word `j` from its value after `n` words to its value after `n + 1`. */
  lemma ValueStep(tracked: seq<string>, near: Near, words: seq<string>, n: nat, j: nat)
    requires Apart(tracked, near, words) && n < |words| && j < |words|
    requires Fix(tracked, near, words[n]).Some? && Token(words[n]) != ""
    ensures Replace(Value(tracked, near, words, n, j), Token(words[n]), Fix(tracked, near, words[n]).value)
         == Value(tracked, near, words, n + 1, j)
  {
    hide LooksLikePath, Known, Normalized, Token, Contains;
    var t, m := Token(words[n]), Fix(tracked, near, words[n]).value;
    var v := Value(tracked, near, words, n, j);
    if Token(words[j]) == t {
      if v == t {
        ReplaceSelf(t, m);
        if exists i :: 0 <= i < n && Token(words[i]) == t {
          assert m == t;
        }
      } else {
        var i :| 0 <= i < n && Token(words[i]) == t;
        assert !Contains(m, t);
        ReplaceAbsent(m, t, m);
      }
    } else {
      assert !Contains(v, t);
      ReplaceAbsent(v, t, m);
    }
  }

  lemma {:induction false} RebuildToken(
      tracked: seq<string>, near: Near, words: seq<string>, n: nat, j: nat, open: string, close: string)
    requires Apart(tracked, near, words) && n <= |words| && j < |words|
    requires forall w <- words :: IsWord(w)
    requires words[j] == open + Token(words[j]) + close && AllQuotes(open) && AllQuotes(close)
    ensures Rebuild(words[j], tracked, near, words[..n]) == open + Value(tracked, near, words, n, j) + close
  {
    hide LooksLikePath, Known, Normalized, Token, IsWord, Apart, AllQuotes;
    if n > 0 {
      RebuildToken(tracked, near, words, n - 1, j, open, close);
      assert words[..n][..n - 1] == words[..n - 1];
      var word := words[n - 1];
      if Fix(tracked, near, word).Some? {
        FixedTokens(tracked, near, word);
        TokenNotEmpty(tracked, near, word);
        ReplaceQuoted(open, Value(tracked, near, words, n - 1, j), close, Token(word), Fix(tracked, near, word).value);
        ValueStep(tracked, near, words, n - 1, j);
      } else {
        UnfixedStep(tracked, near, words, n - 1, j);
      }
    }
  }

  lemma TokenNotEmpty(tracked: seq<string>, near: Near, word: string)
    requires Fix(tracked, near, word).Some?
    ensures Token(word) != ""
  {
  }

  /** A word with nothing to fix shares its token only with such words. */
  lemma UnfixedStep(tracked: seq<string>, near: Near, words: seq<string>, n: nat, j: nat)
    requires n < |words| && j < |words| && Fix(tracked, near, words[n]).None?
    ensures Value(tracked, near, words, n, j) == Value(tracked, near, words, n + 1, j)
  {
    hide LooksLikePath, Known, Normalized, Token;
  }

  lemma WordRewritten(tracked: seq<string>, near: Near, words: seq<string>, j: nat)
    requires Apart(tracked, near, words) && j < |words| && forall w <- words :: IsWord(w)
    ensures Rewritten(tracked, near, words[j], Rebuild(words[j], tracked, near, words))
  {
    hide LooksLikePath, Known, Normalized, Token, IsWord, Apart, AllQuotes, Rebuild;
    var open, close := TokenSplits(words[j]);
    RebuildToken(tracked, near, words, |words|, j, open, close);
    assert words[..|words|] == words;
    assert Token(words[j]) == Token(words[j]);
  }

  /** Same blanks, and each word its rewriting. */
  ghost predicate Tokenwise(tracked: seq<string>, near: Near, command: string) {
    var before, after := Parse(command), Parse(RepairCommand(tracked, near, command));
    && after.gaps == before.gaps && |after.words| == |before.words|
    && forall j :: 0 <= j < |before.words| ==> Rewritten(tracked, near, before.words[j], after.words[j])
  }

  /** Without any condition, the repaired command has the same blanks and each word rebuilt by itself. */
  lemma RepairedLine(tracked: seq<string>, near: Near, command: string)
    requires CleanMatches(tracked, near, Parse(command).words)
    ensures var before := Parse(command);
      && (forall w <- before.words :: IsWord(w))
      && Parse(RepairCommand(tracked, near, command))
           == Line(before.gaps, RebuildEach(before.words, tracked, near, before.words))
  {
    hide Rebuild, IsWord;
    var line := Parse(command);
    ParseValid(command);
    RenderParse(command);
    RebuildLine(line, tracked, near, line.words);
    RebuiltValid(line, tracked, near, line.words);
    ParseRender(line.gaps, RebuildEach(line.words, tracked, near, line.words));
  }

  /**
   A command whose tokens are apart is repaired token by token: same blanks,
   same quotes, each mistyped token replaced by its match, nothing else touched.
   */
  lemma RepairIsTokenwise(tracked: seq<string>, near: Near, command: string)
    requires CleanMatches(tracked, near, Parse(command).words) && Apart(tracked, near, Parse(command).words)
    ensures Tokenwise(tracked, near, command)
  {
    hide Rebuild, Rewritten, Apart, IsWord;
    var line := Parse(command);
    RepairedLine(tracked, near, command);
    forall j | 0 <= j < |line.words|
      ensures Rewritten(tracked, near, line.words[j], RebuildEach(line.words, tracked, near, line.words)[j])
    {
      WordRewritten(tracked, near, line.words, j);
    }
  }

  /** A rewritten word calls for what its match calls for, and for nothing if it had none. */
  lemma RewrittenCalls(tracked: seq<string>, near: Near, word: string, after: string)
    requires Rewritten(tracked, near, word, after)
    requires var fix := Fix(tracked, near, word); fix.Some? ==> Clean(fix.value)
    ensures var fix := Fix(tracked, near, word);
      Fix(tracked, near, after) == if fix.Some? then Fix(tracked, near, fix.value) else None
  {
    hide LooksLikePath, Known, Normalized;
    if Fix(tracked, near, word).Some? {
      var open, close :|
        && AllQuotes(open) && AllQuotes(close)
        && word == open + Token(word) + close && after == open + Fix(tracked, near, word).value + close;
      var match_ := Fix(tracked, near, word).value;
      TokenOfQuoted(open, match_, close);
      TrimmedStrip(match_, IsQuote);
    }
  }

  lemma {:induction false} QuietIff(tracked: seq<string>, near: Near, words: seq<string>)
    ensures Notes(tracked, near, words) == [] <==> forall w <- words :: Fix(tracked, near, w).None?
  {
    hide Fix;
    if words != [] {
      var front, last := words[..|words| - 1], words[|words| - 1];
      QuietIff(tracked, near, front);
      assert words == front + [last];
    }
  }

  /** A second pass over a repaired command is silent exactly when no match used would itself be repaired. */
  lemma RepairedQuietIff(tracked: seq<string>, near: Near, command: string)
    requires CleanMatches(tracked, near, Parse(command).words) && Apart(tracked, near, Parse(command).words)
    ensures Notes(tracked, near, Parse(RepairCommand(tracked, near, command)).words) == []
      <==> SettledMatches(tracked, near, Parse(command).words)
  {
    hide Fix, Rewritten, Apart, RepairCommand, Clean, Parse;
    RepairIsTokenwise(tracked, near, command);
    var before, after := Parse(command).words, Parse(RepairCommand(tracked, near, command)).words;
    QuietIff(tracked, near, after);
    forall j | 0 <= j < |before|
      ensures var fix := Fix(tracked, near, before[j]);
        Fix(tracked, near, after[j]) == if fix.Some? then Fix(tracked, near, fix.value) else None
    {
      assert before[j] in before;
      RewrittenCalls(tracked, near, before[j], after[j]);
    }
    assert forall j :: 0 <= j < |before| ==> before[j] in before && after[j] in after;
  }

  /** Commands the repair treats word by word. */
  predicate Regular(tracked: seq<string>, near: Near, commands: seq<string>) {
    forall c <- commands :: CleanMatches(tracked, near, Parse(c).words) && Apart(tracked, near, Parse(c).words)
  }

  predicate AllSettled(tracked: seq<string>, near: Near, commands: seq<string>) {
    forall c <- commands :: SettledMatches(tracked, near, Parse(c).words)
  }

  /** Repair reaches a fixpoint in one pass exactly when no match used would itself be repaired. */
  lemma {:induction false} RepairFixpointIff(tracked: seq<string>, near: Near, commands: seq<string>)
    requires Regular(tracked, near, commands)
    ensures AllNotes(tracked, near, RepairAll(tracked, near, commands)) == [] <==> AllSettled(tracked, near, commands)
  {
    hide Apart, CleanMatches, SettledMatches, RepairCommand, Notes, Parse;
    if commands != [] {
      var front, last := commands[..|commands| - 1], commands[|commands| - 1];
      assert commands == front + [last];
      RepairFixpointIff(tracked, near, front);
      var all := RepairAll(tracked, near, commands);
      assert all[..|all| - 1] == RepairAll(tracked, near, front);
      RepairedQuietIff(tracked, near, last);
    }
  }

  /** A tracked path with no dot or slash at either end is a settled match. */
  lemma TidyMatchSettles(tracked: seq<string>, near: Near, match_: string)
    requires match_ in tracked && Clean(match_) && Trimmed(match_, IsDotOrSlash)
    ensures Fix(tracked, near, match_).None?
  {
    hide LooksLikePath;
    TrimmedStrip(match_, IsQuote);
    TrimmedStrip(match_, IsDotOrSlash);
  }

  /** Every match these commands call for is such a path. */
  predicate TidyMatches(tracked: seq<string>, near: Near, commands: seq<string>) {
    forall c <- commands :: forall w <- Parse(c).words :: Fix(tracked, near, w).Some? ==>
      Fix(tracked, near, w).value in tracked && Trimmed(Fix(tracked, near, w).value, IsDotOrSlash)
  }

  lemma TidySettles(tracked: seq<string>, near: Near, commands: seq<string>)
    requires Regular(tracked, near, commands) && TidyMatches(tracked, near, commands)
    ensures AllSettled(tracked, near, commands)
  {
    hide Apart, LooksLikePath, Known, Normalized, Token, Parse, IsDotOrSlash, Clean;
    forall c <- commands ensures SettledMatches(tracked, near, Parse(c).words) {
      forall w <- Parse(c).words | Fix(tracked, near, w).Some?
        ensures Fix(tracked, near, Fix(tracked, near, w).value).None?
      {
        TidyMatchSettles(tracked, near, Fix(tracked, near, w).value);
      }
    }
  }

  /** Then a second pass over the repaired commands has nothing to say. */
  lemma CommandRepairFixpoint(tracked: seq<string>, near: Near, commands: seq<string>)
    requires Regular(tracked, near, commands) && TidyMatches(tracked, near, commands)
    ensures AllNotes(tracked, near, RepairAll(tracked, near, commands)) == []
  {
    hide Regular, TidyMatches, AllSettled;
    TidySettles(tracked, near, commands);
    RepairFixpointIff(tracked, near, commands);
  }

  lemma DotfileCalls(tracked: seq<string>, near: Near)
    requires tracked == [".x/y"] && near("x/y") == Some(".x/y")
    ensures IsWord(".x/y") && Token(".x/y") == ".x/y" && Fix(tracked, near, ".x/y") == Some(".x/y")
  {
    DotfileToken();
    DotfileUnknown(tracked);
    hide Token, Normalized, LooksLikePath, Known, IsSpace;
  }

  lemma DotfileToken()
    ensures IsWord(".x/y") && Token(".x/y") == ".x/y"
    ensures Normalized(".x/y") == "x/y" && LooksLikePath(".x/y")
  {
    assert ".x/y"[1] == 'x' && ".x/y"[2] == '/';
  }

  lemma DotfileUnknown(tracked: seq<string>)
    requires tracked == [".x/y"]
    ensures !Known(tracked, "x/y")
  {
    assert DirName(".x/y") == DirName(".x/") == ".x";
  }

  lemma OneWord(word: string)
    requires IsWord(word)
    ensures Parse(word).words == [word]
  {
    assert [""][1..] == [] && ["", ""][1..] == [""] && [word][1..] == [];
    assert Render(["", ""], [word]) == "" + word + "";
    assert "" + word + "" == word;
    ParseRender(["", ""], [word]);
  }

  /** A correct command that names a tracked dotfile is repaired to itself, on every pass. */
  lemma DotfileRepairsForEver(tracked: seq<string>, near: Near)
    requires tracked == [".x/y"] && near("x/y") == Some(".x/y")
    ensures RepairAll(tracked, near, [".x/y"]) == [".x/y"] && AllNotes(tracked, near, [".x/y"]) != []
  {
    hide Fix, Parse, Token, IsWord;
    var c := ".x/y";
    DotfileCalls(tracked, near);
    OneWord(c);
    assert [c][..0] == [];
    ReplaceSelf(c, c);
  }
}
