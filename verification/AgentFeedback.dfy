/** Reading the gate's joined refusal back: which failures an agent is told about, and the reasons in them. */
module AgentFeedback {
  import opened Options
  import opened PyText
  import opened Verification

  const ACTIONABLE_PREFIXES: seq<string> := [
    "path outside allowed scope",
    "forbidden path changed",
    "protected test changed",
    "protected test missing or renamed",
    "test bypass marker present",
    "verification configuration changed",
    "test bundle does not match task revision",
    "test author produced no executable checks",
    "test author violated the frozen checks",
    "verification command violated the frozen checks",
    "test author modified production paths",
    "test author deleted or renamed executable checks",
    "test bundle did not establish",
    "verification command modified production paths",
    "authoritative verification command failed",
    "verification command changed the validated candidate"
  ]

  predicate HasActionablePrefix(text: string) {
    exists prefix <- ACTIONABLE_PREFIXES :: prefix <= text
  }

  predicate IsAgentActionable(message: Option<string>) {
    message.Some? && message.value != "" && HasActionablePrefix(Strip(message.value, IsSpace))
  }

  const SEPARATOR := "; "

  const SAFE_MESSAGE_LIMIT := 500

  /** What a failed task carries of its reason. */
  function SafeMessage(reason: string): string {
    if |reason| <= SAFE_MESSAGE_LIMIT then reason else reason[..SAFE_MESSAGE_LIMIT]
  }

  function Part(part: string): seq<string> {
    if Strip(part, IsSpace) == "" then [] else [Strip(part, IsSpace)]
  }

  function Kept(parts: seq<string>): seq<string> {
    if parts == [] then [] else Part(parts[0]) + Kept(parts[1..])
  }

  function SplitReasons(message: string): seq<string> {
    Kept(Split(message, SEPARATOR))
  }

  // ------------------------------------------------- every refusal is read

  lemma PrefixCounts(i: nat, text: string)
    requires i < |ACTIONABLE_PREFIXES| && ACTIONABLE_PREFIXES[i] <= text
    ensures HasActionablePrefix(text)
  {
    assert ACTIONABLE_PREFIXES[i] in ACTIONABLE_PREFIXES;
  }

  lemma ReasonPrefixes(path: string)
    ensures ACTIONABLE_PREFIXES[0] <= OUTSIDE + path
    ensures ACTIONABLE_PREFIXES[1] <= FORBIDDEN + path
    ensures ACTIONABLE_PREFIXES[2] <= CHANGED + path
    ensures ACTIONABLE_PREFIXES[3] <= MISSING + path
    ensures ACTIONABLE_PREFIXES[4] <= BYPASSED + path
    ensures ACTIONABLE_PREFIXES[5] <= CONFIG_CHANGED + path
    ensures ACTIONABLE_PREFIXES[6] <= WRONG_BUNDLE
  {
  }

  /** One of the seven texts the gate writes, with the index of the prefix that recognises it. */
  predicate Recognised(reason: string) {
    exists i :: 0 <= i < 7 && ACTIONABLE_PREFIXES[i] <= reason
  }

  lemma {:induction false} ProtectedRecognised(tree: Tree, pinned: Pinned, order: seq<string>)
    requires forall path <- order :: path in pinned.hash
    ensures forall r <- ProtectedReasons(tree, pinned, order) :: Recognised(r)
  {
    if order != [] {
      ProtectedRecognised(tree, pinned, order[..|order| - 1]);
      ReasonPrefixes(order[|order| - 1]);
    }
  }

  lemma {:induction false} ConfigRecognised(paths: seq<string>, exempt: map<string, string>)
    ensures forall r <- ConfigReasons(paths, exempt) :: Recognised(r)
  {
    if paths != [] {
      ConfigRecognised(paths[..|paths| - 1], exempt);
      ReasonPrefixes(paths[|paths| - 1]);
    }
  }

  lemma {:induction false} ScopeRecognised(c: Contract, paths: seq<string>, exempt: map<string, string>)
    ensures forall r <- ScopeReasons(c, paths, exempt) :: Recognised(r)
  {
    if paths != [] {
      ScopeRecognised(c, paths[..|paths| - 1], exempt);
      ReasonPrefixes(paths[|paths| - 1]);
    }
  }

  lemma {:induction false} RStripKeepsPrefix(s: string, prefix: string)
    requires prefix != "" && prefix <= s && !IsSpace(prefix[|prefix| - 1])
    ensures prefix <= RStrip(s, IsSpace)
  {
    if IsSpace(s[|s| - 1]) {
      assert prefix <= s[..|s| - 1];
      RStripKeepsPrefix(s[..|s| - 1], prefix);
    }
  }

  predicate IsLetter(c: char) { 'a' <= c <= 'z' }

  /** Short enough to survive the cut, and a letter at each end. */
  predicate WordLike(p: string) {
    0 < |p| <= SAFE_MESSAGE_LIMIT && IsLetter(p[0]) && IsLetter(p[|p| - 1])
  }

  lemma PrefixesAreWords(i: nat)
    requires i < |ACTIONABLE_PREFIXES|
    ensures WordLike(ACTIONABLE_PREFIXES[i])
  {
    var p := ACTIONABLE_PREFIXES;
    assert |p| == 16;
    assert WordLike(p[0]) && WordLike(p[1]) && WordLike(p[2]) && WordLike(p[3]);
    assert WordLike(p[4]) && WordLike(p[5]) && WordLike(p[6]) && WordLike(p[7]);
    assert WordLike(p[8]) && WordLike(p[9]) && WordLike(p[10]) && WordLike(p[11]);
    assert WordLike(p[12]) && WordLike(p[13]) && WordLike(p[14]) && WordLike(p[15]);
  }

  lemma LetterIsNoSpace(c: char)
    requires IsLetter(c)
    ensures !IsSpace(c)
  {
  }

  lemma JoinStarts(reasons: seq<string>, sep: string)
    requires reasons != []
    ensures reasons[0] <= Join(reasons, sep)
  {
  }

  /** A message that opens with one of the prefixes is recognised, whatever follows it and wherever it is cut. */
  lemma OpeningSurvivesCut(message: string, i: nat)
    requires i < |ACTIONABLE_PREFIXES| && ACTIONABLE_PREFIXES[i] <= message
    ensures IsAgentActionable(Some(message)) && IsAgentActionable(Some(SafeMessage(message)))
  {
    hide IsAgentActionable;
    PrefixesAreWords(i);
    OpeningIsActionable(message, i);
    OpeningIsActionable(SafeMessage(message), i);
  }

  lemma OpeningIsActionable(message: string, i: nat)
    requires i < |ACTIONABLE_PREFIXES| && ACTIONABLE_PREFIXES[i] <= message
    ensures IsAgentActionable(Some(message))
  {
    hide IsSpace, HasActionablePrefix;
    var p := ACTIONABLE_PREFIXES[i];
    PrefixesAreWords(i);
    LetterIsNoSpace(p[0]);
    LetterIsNoSpace(p[|p| - 1]);
    assert message[0] == p[0];
    assert LStrip(message, IsSpace) == message;
    RStripKeepsPrefix(message, p);
    PrefixCounts(i, Strip(message, IsSpace));
  }

  /** Every rejection of the implementation gate, over all trees, contracts and bundles, is agent-actionable once joined, and still once cut. */
  lemma RejectionsAreActionable(tree: Tree, c: Contract, b: Bundle, changed: seq<string>)
    requires b.pinned.Valid() && !Judge(CandidateReasons(tree, c, b, changed)).accepted
    ensures var message := Join(Judge(CandidateReasons(tree, c, b, changed)).reasons, SEPARATOR);
      IsAgentActionable(Some(message)) && IsAgentActionable(Some(SafeMessage(message)))
  {
    var reasons := CandidateReasons(tree, c, b, changed);
    ReasonPrefixes("");
    ProtectedRecognised(tree, b.pinned, b.pinned.order);
    ConfigRecognised(ChangedPaths(changed), b.pinned.hash);
    ScopeRecognised(c, ChangedPaths(changed), b.pinned.hash);
    DistinctKeeps(reasons);
    JoinStarts(Distinct(reasons), SEPARATOR);
    assert Recognised(reasons[0]);
    var i :| 0 <= i < 7 && ACTIONABLE_PREFIXES[i] <= reasons[0];
    OpeningSurvivesCut(Join(Distinct(reasons), SEPARATOR), i);
  }

  const AUTHOR_VIOLATED := "test author violated the frozen checks"
  const COMMAND_VIOLATED := "verification command violated the frozen checks"
  const COMMAND_CHANGED := "verification command changed the validated candidate"

  /** The refusals the stages write with a lead-in of their own are recognised by it, whatever the gate's reasons. */
  lemma LedRejectionsAreActionable(lead: string, reasons: seq<string>)
    requires lead in {AUTHOR_VIOLATED, COMMAND_VIOLATED, COMMAND_CHANGED}
    ensures var message := lead + ": " + Join(reasons, SEPARATOR);
      IsAgentActionable(Some(message)) && IsAgentActionable(Some(SafeMessage(message)))
  {
    hide IsAgentActionable;
    var message := lead + ": " + Join(reasons, SEPARATOR);
    assert ACTIONABLE_PREFIXES[8] == AUTHOR_VIOLATED && ACTIONABLE_PREFIXES[9] == COMMAND_VIOLATED;
    assert ACTIONABLE_PREFIXES[15] == COMMAND_CHANGED;
    var i := if lead == AUTHOR_VIOLATED then 8 else if lead == COMMAND_VIOLATED then 9 else 15;
    assert lead <= message;
    OpeningSurvivesCut(message, i);
  }

  // ------------------------------------------- and nothing else is acted on

  lemma WordSurvivesStrip(s: string, p: string)
    requires WordLike(p)
    ensures p <= Strip(s, IsSpace) <==> p <= LStrip(s, IsSpace)
  {
    hide IsSpace, LStrip, RStrip;
    LetterIsNoSpace(p[|p| - 1]);
    var l := LStrip(s, IsSpace);
    RStripIs(l, IsSpace);
    if p <= l {
      RStripKeepsPrefix(l, p);
    }
  }

  /** The first `k` characters are blanks. */
  predicate BlankUpTo(s: string, k: nat) {
    k <= |s| && forall i :: 0 <= i < k ==> IsSpace(s[i])
  }

  lemma {:induction false} LStripAt(s: string, k: nat)
    requires BlankUpTo(s, k) && (k < |s| ==> !IsSpace(s[k]))
    ensures LStrip(s, IsSpace) == s[k..]
  {
    hide IsSpace;
    if k > 0 {
      LStripAt(s[1..], k - 1);
      assert s[1..][k - 1..] == s[k..];
    }
  }

  lemma {:induction false} BlanksEnd(s: string)
    ensures exists k: nat :: BlankUpTo(s, k) && (k < |s| ==> !IsSpace(s[k]))
  {
    hide IsSpace;
    if s != "" && IsSpace(s[0]) {
      BlanksEnd(s[1..]);
      var k: nat :| BlankUpTo(s[1..], k) && (k < |s[1..]| ==> !IsSpace(s[1..][k]));
      assert BlankUpTo(s, k + 1);
    } else {
      assert BlankUpTo(s, 0);
    }
  }

  /** After some blanks the text goes on with one of the prefixes. */
  ghost predicate OpensKnown(text: string) {
    exists k: nat, p <- ACTIONABLE_PREFIXES :: BlankUpTo(text, k) && p <= text[k..]
  }

  /** A failure is acted on when its text opens with one of the prefixes behind its blanks, and in no other case. */
  lemma ActionableIff(message: Option<string>)
    ensures IsAgentActionable(message) <==> message.Some? && OpensKnown(message.value)
  {
    hide IsSpace, Strip, LStrip;
    if message.Some? {
      var text := message.value;
      BlanksEnd(text);
      var k: nat :| BlankUpTo(text, k) && (k < |text| ==> !IsSpace(text[k]));
      LStripAt(text, k);
      forall p <- ACTIONABLE_PREFIXES ensures WordLike(p) && (p <= Strip(text, IsSpace) <==> p <= text[k..]) {
        var i :| 0 <= i < |ACTIONABLE_PREFIXES| && ACTIONABLE_PREFIXES[i] == p;
        PrefixesAreWords(i);
        WordSurvivesStrip(text, p);
      }
      forall j: nat, p <- ACTIONABLE_PREFIXES | BlankUpTo(text, j) && p <= text[j..]
        ensures j == k
      {
        LetterIsNoSpace(p[0]);
        assert text[j] == p[0];
      }
    }
  }

  // -------------------------------------------- splitting inverts joining

  /** A reason that survives being joined and split again. */
  predicate Separable(reason: string) {
    reason != "" && Trimmed(reason, IsSpace) && !Contains(reason, SEPARATOR)
  }

  lemma SeparatorSettles(reason: string)
    requires !Contains(reason, SEPARATOR)
    ensures Settled(reason, SEPARATOR)
  {
    forall k | 0 <= k < |reason| && SEPARATOR <= (reason + SEPARATOR)[k..]
      ensures k + |SEPARATOR| <= |reason|
    {
      assert (reason + SEPARATOR)[k..][1] == ' ';
    }
  }

  lemma KeptCons(part: string, parts: seq<string>)
    ensures Kept([part] + parts) == Part(part) + Kept(parts)
  {
    assert ([part] + parts)[1..] == parts;
  }

  lemma KeptNothing()
    ensures Kept([]) == []
  {
  }

  lemma {:induction false} KeptConcat(a: seq<string>, b: seq<string>)
    ensures Kept(a + b) == Kept(a) + Kept(b)
  {
    hide Part, Kept;
    if a == [] {
      assert a + b == b;
      KeptNothing();
    } else {
      KeptConcat(a[1..], b);
      KeptCons(a[0], a[1..]);
      KeptCons(a[0], a[1..] + b);
      assert a == [a[0]] + a[1..] && a + b == [a[0]] + (a[1..] + b);
      assert Part(a[0]) + (Kept(a[1..]) + Kept(b)) == (Part(a[0]) + Kept(a[1..])) + Kept(b);
    }
  }

  lemma SplitOne(reason: string)
    requires Separable(reason)
    ensures Split(reason, SEPARATOR) == [reason] && Kept([reason]) == [reason]
  {
    SplitWhole(reason, SEPARATOR);
    TrimmedStrip(reason, IsSpace);
  }

  lemma {:induction false} SeparableRoundTrip(reasons: seq<string>)
    requires forall r <- reasons :: Separable(r)
    ensures SplitReasons(Join(reasons, SEPARATOR)) == reasons
  {
    if reasons == [] {
      assert Split("", SEPARATOR) == [""] && Part("") == [] && [""][1..] == [];
      assert Kept([""]) == [];
    } else if |reasons| == 1 {
      SplitOne(reasons[0]);
    } else {
      var first, rest := reasons[0], reasons[1..];
      SeparableRoundTrip(rest);
      SplitOne(first);
      SeparatorSettles(first);
      SplitConcat(first, Join(rest, SEPARATOR), SEPARATOR);
      KeptConcat([first], Split(Join(rest, SEPARATOR), SEPARATOR));
      assert Join(reasons, SEPARATOR) == first + SEPARATOR + Join(rest, SEPARATOR);
      assert SplitReasons(Join(reasons, SEPARATOR)) == [first] + rest;
      assert [first] + rest == reasons;
    }
  }

  lemma StripSeparable(part: string)
    requires !Contains(part, SEPARATOR) && Strip(part, IsSpace) != ""
    ensures Separable(Strip(part, IsSpace))
  {
    StripTrims(part, IsSpace);
    var i, j :| 0 <= i <= j <= |part| && Strip(part, IsSpace) == part[i..j];
    SliceClean(part, SEPARATOR, i, j);
  }

  lemma {:induction false} KeptSeparable(parts: seq<string>)
    requires forall part <- parts :: !Contains(part, SEPARATOR)
    ensures forall r <- Kept(parts) :: Separable(r)
  {
    if parts != [] {
      KeptSeparable(parts[1..]);
      if Strip(parts[0], IsSpace) != "" {
        StripSeparable(parts[0]);
      }
    }
  }

  /** Splitting a joined refusal gives back exactly its reasons, in order, if and only if each reason is separable. */
  lemma SplitInvertsJoinIff(reasons: seq<string>)
    ensures SplitReasons(Join(reasons, SEPARATOR)) == reasons <==> forall r <- reasons :: Separable(r)
  {
    if forall r <- reasons :: Separable(r) {
      SeparableRoundTrip(reasons);
    }
    SplitSeparable(Join(reasons, SEPARATOR));
  }

  /** Whatever is read back is separable. */
  lemma SplitSeparable(message: string)
    ensures forall r <- SplitReasons(message) :: Separable(r)
  {
    var parts := Split(message, SEPARATOR);
    forall part | part in parts ensures !Contains(part, SEPARATOR) {
      var i :| 0 <= i < |parts| && parts[i] == part;
      PartsClean(message, SEPARATOR, i);
    }
    KeptSeparable(parts);
  }

  lemma JoinCons(first: string, rest: seq<string>)
    ensures |Join([first] + rest, SEPARATOR)| == |first| + if rest == [] then 0 else |SEPARATOR| + |Join(rest, SEPARATOR)|
  {
    assert ([first] + rest)[1..] == rest;
  }

  lemma {:induction false} KeptIsShorter(parts: seq<string>)
    ensures |Join(Kept(parts), SEPARATOR)| <= |Join(parts, SEPARATOR)|
  {
    hide Join, Strip;
    if parts == [] {
    } else {
      KeptIsShorter(parts[1..]);
      StripTrims(parts[0], IsSpace);
      assert parts == [parts[0]] + parts[1..];
      JoinCons(parts[0], parts[1..]);
      if Part(parts[0]) == [] {
        assert Kept(parts) == Kept(parts[1..]);
        JoinNothing();
      } else {
        JoinCons(Strip(parts[0], IsSpace), Kept(parts[1..]));
      }
    }
  }

  lemma JoinNothing()
    ensures Join([], SEPARATOR) == ""
  {
  }

  /** Reading back never yields more text than there was. */
  lemma SplitIsShorter(message: string)
    ensures |Join(SplitReasons(message), SEPARATOR)| <= |message|
  {
    KeptIsShorter(Split(message, SEPARATOR));
    JoinSplit(message, SEPARATOR);
  }

  /**
   The failure carries at most 500 characters: its reasons are read back exactly
   if and only if each is separable and together they fit.
   */
  lemma CutReadsBackIff(reasons: seq<string>)
    ensures SplitReasons(SafeMessage(Join(reasons, SEPARATOR))) == reasons
      <==> (forall r <- reasons :: Separable(r)) && |Join(reasons, SEPARATOR)| <= SAFE_MESSAGE_LIMIT
  {
    hide SplitReasons, Separable, Join;
    var message := Join(reasons, SEPARATOR);
    SplitInvertsJoinIff(reasons);
    SplitSeparable(SafeMessage(message));
    SplitIsShorter(SafeMessage(message));
  }

  /** A gate reason is separable exactly when the path it names ends in no blank and holds no "; ". */
  lemma SeparableIffPath(prefix: string, path: string)
    requires prefix != "" && !IsSpace(prefix[0]) && prefix[|prefix| - 1] == ' ' && ';' !in prefix
    ensures Separable(prefix + path)
      <==> path != "" && !IsSpace(path[|path| - 1]) && !Contains(path, SEPARATOR)
  {
    var reason := prefix + path;
    forall k | 0 <= k <= |reason| && SEPARATOR <= reason[k..]
      ensures |prefix| <= k && SEPARATOR <= path[k - |prefix|..]
    {
      assert reason[k] == ';';
      assert reason[k..] == path[k - |prefix|..];
    }
    forall k | 0 <= k <= |path| && SEPARATOR <= path[k..]
      ensures SEPARATOR <= reason[|prefix| + k..]
    {
      assert reason[|prefix| + k..] == path[k..];
    }
  }
}
