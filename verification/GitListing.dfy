/** How git prints path names, and what the change listing makes of them. */
module GitListing {
  import opened PyText
  import opened PathNames

  // ---------------------------------------------------------------- quoting

  /** One octal escape. */
  function Octal(byte: nat): string
    requires byte < 256
  {
    ['\\', '0' + (byte / 64) as char, '0' + (byte / 8 % 8) as char, '0' + (byte % 8) as char]
  }

  /** The octal escapes of the character's UTF-8 bytes. */
  function Octals(c: char): string {
    var n := c as int;
    if n < 0x80 then Octal(n)
    else if n < 0x800 then Octal(0xC0 + n / 0x40) + Octal(0x80 + n % 0x40)
    else if n < 0x1_0000 then Octal(0xE0 + n / 0x1000) + Octal(0x80 + n / 0x40 % 0x40) + Octal(0x80 + n % 0x40)
    else
      Octal(0xF0 + n / 0x4_0000) + Octal(0x80 + n / 0x1000 % 0x40) + Octal(0x80 + n / 0x40 % 0x40)
      + Octal(0x80 + n % 0x40)
  }

  predicate Escapes(c: char) {
    c < ' ' || c == '"' || c == '\\' || '\U{7F}' <= c
  }

  function Escape(c: char): string {
    if !Escapes(c) then [c]
    else if c == '"' || c == '\\' then ['\\', c]
    else if '\U{07}' <= c <= '\r' then ['\\', "abtnvfr"[c as int - 7]]
    else Octals(c)
  }

  function EscapeAll(path: string): string {
    if path == "" then "" else Escape(path[0]) + EscapeAll(path[1..])
  }

  predicate NeedsEscape(path: string) {
    exists c <- path :: Escapes(c)
  }

  /** `git diff --name-only` quotes a name that needs an escape. */
  function DiffName(path: string): string {
    if NeedsEscape(path) then "\"" + EscapeAll(path) + "\"" else path
  }

  /** `git status --porcelain` quotes a name with a blank as well. */
  function StatusName(path: string): string {
    if NeedsEscape(path) || ' ' in path then "\"" + EscapeAll(path) + "\"" else path
  }

  /** A name that git prints as it is. */
  predicate PlainName(path: string) {
    !NeedsEscape(path) && ' ' !in path
  }

  // --------------------------------------------------------------- entries

  function LastPart(s: string, sep: string): string
    requires sep != ""
  {
    var parts := Split(s, sep);
    parts[|parts| - 1]
  }

  /** `line[3:].strip().split(" -> ")[-1]` of a status line. */
  function StatusEntry(path: string): string {
    LastPart(Strip(StatusName(path), IsSpace), " -> ")
  }

  /** `line.strip()` of a diff line. */
  function DiffEntry(path: string): string {
    Strip(DiffName(path), IsSpace)
  }

  lemma PlainTrimmed(path: string)
    requires PlainName(path)
    ensures Strip(path, IsSpace) == path
  {
    forall c <- path ensures !IsSpace(c) {
      assert !Escapes(c);
    }
    TrimmedStrip(path, IsSpace);
  }

  /** A plain name is listed as it is, whichever command lists it. */
  lemma PlainEntries(path: string)
    requires PlainName(path)
    ensures StatusEntry(path) == path && DiffEntry(path) == path
  {
    hide IsSpace;
    PlainTrimmed(path);
    forall k | 0 <= k <= |path| ensures !(" -> " <= path[k..]) {
      assert k < |path| ==> path[k] in path;
    }
    SplitWhole(path, " -> ");
  }

  // ------------------------------------------------ names that end in a quote

  predicate EndsIn(s: string, c: char) {
    s != "" && s[|s| - 1] == c
  }

  /** What ends outside the separator ends the last part. */
  lemma {:induction false} LastPartEnds(s: string, sep: string, c: char)
    requires sep != "" && !EndsIn(sep, c) && EndsIn(s, c)
    ensures EndsIn(LastPart(s, sep), c)
    decreases |s|
  {
    hide Split;
    if sep <= s {
      var rest := s[|sep|..];
      assert s == sep + rest;
      LastPartEnds(rest, sep, c);
      SplitHere(rest, sep);
    } else {
      var rest := s[1..];
      assert s == [s[0]] + rest;
      SplitLater(s[0], rest, sep);
      if rest == "" {
        SplitEmpty(sep);
      } else {
        LastPartEnds(rest, sep, c);
        LastPrepended(s[0], Split(rest, sep));
      }
    }
  }

  lemma LastPrepended(c: char, parts: seq<string>)
    requires parts != [] && parts[|parts| - 1] != ""
    ensures var more := Prepend(c, parts);
      more[|more| - 1] != "" && more[|more| - 1][|more[|more| - 1]| - 1] == parts[|parts| - 1][|parts[|parts| - 1]| - 1]
  {
  }

  /** A name that git quotes in its status is listed under an entry that ends in the quote. */
  lemma QuotedEntryEnds(path: string)
    requires !PlainName(path)
    ensures EndsIn(StatusEntry(path), '"')
  {
    hide NeedsEscape, EscapeAll;
    var name := StatusName(path);
    assert name[0] == '"' && name[|name| - 1] == '"';
    TrimmedStrip(name, IsSpace);
    LastPartEnds(name, " -> ", '"');
  }

  lemma {:induction false} ComponentsEnd(parts: seq<string>, c: char)
    requires parts != [] && EndsIn(parts[|parts| - 1], c) && c != '.'
    ensures Components(parts) != [] && Components(parts)[|Components(parts)| - 1] == parts[|parts| - 1]
  {
  }

  lemma {:induction false} JoinEnds(parts: seq<string>, sep: string, c: char)
    requires parts != [] && EndsIn(parts[|parts| - 1], c)
    ensures EndsIn(Join(parts, sep), c)
  {
    if |parts| > 1 {
      JoinEnds(parts[1..], sep, c);
    }
  }

  /** Neither the POSIX form nor the base name loses the last character, unless it is a dot or a slash. */
  lemma PosixEnds(path: string, c: char)
    requires EndsIn(path, c) && c != '/' && c != '.'
    ensures EndsIn(AsPosix(path), c) && EndsIn(PathName(path), c)
  {
    hide Components, Split;
    var parts := Segments(path);
    LastPartEnds(path, "/", c);
    ComponentsEnd(parts, c);
    JoinEnds(Components(parts), "/", c);
  }
}
