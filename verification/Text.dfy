/** The Rust string operations that the configuration readers use. */
module Text {
  /** Unicode's white space, which `str::trim` removes. */
  predicate IsWhitespace(c: char) {
    var n := c as int;
    || 9 <= n <= 13 || n == 0x20 || n == 0x85 || n == 0xA0 || n == 0x1680 || 0x2000 <= n <= 0x200A
    || n == 0x2028 || n == 0x2029 || n == 0x202F || n == 0x205F || n == 0x3000
  }

  function TrimStart(s: string): string {
    if s != [] && IsWhitespace(s[0]) then TrimStart(s[1..]) else s
  }

  function TrimEnd(s: string): string {
    if s != [] && IsWhitespace(s[|s| - 1]) then TrimEnd(s[..|s| - 1]) else s
  }

  function Trim(s: string): string {
    TrimEnd(TrimStart(s))
  }

  /** Nothing to trim. */
  predicate Trimmed(s: string) {
    s == [] || (!IsWhitespace(s[0]) && !IsWhitespace(s[|s| - 1]))
  }

  lemma {:induction false} TrimStartFacts(s: string)
    ensures |TrimStart(s)| <= |s| && (TrimStart(s) != [] ==> !IsWhitespace(TrimStart(s)[0]))
    ensures TrimStart(s) != [] && s != [] ==> TrimStart(s)[|TrimStart(s)| - 1] == s[|s| - 1]
    decreases |s|
  {
    if s != [] && IsWhitespace(s[0]) {
      TrimStartFacts(s[1..]);
    }
  }

  lemma {:induction false} TrimEndFacts(s: string)
    ensures TrimEnd(s) <= s && (TrimEnd(s) != [] ==> !IsWhitespace(TrimEnd(s)[|TrimEnd(s)| - 1]))
    decreases |s|
  {
    if s != [] && IsWhitespace(s[|s| - 1]) {
      TrimEndFacts(s[..|s| - 1]);
    }
  }

  lemma TrimExactly(s: string)
    ensures Trimmed(Trim(s)) && (Trim(s) == s <==> Trimmed(s))
  {
    TrimStartFacts(s);
    TrimEndFacts(TrimStart(s));
  }

  predicate Blank(s: string) {
    forall i | 0 <= i < |s| :: IsWhitespace(s[i])
  }

  lemma {:induction false} TrimStartFrom(s: string) returns (start: nat)
    ensures start <= |s| && TrimStart(s) == s[start..] && Blank(s[..start])
    decreases |s|
  {
    start := 0;
    if s != [] && IsWhitespace(s[0]) {
      var more := TrimStartFrom(s[1..]);
      start := more + 1;
      assert forall i | 0 < i < start :: s[i] == s[1..][..more][i - 1];
    }
  }

  lemma {:induction false} TrimEndAt(s: string) returns (end: nat)
    ensures end <= |s| && TrimEnd(s) == s[..end] && Blank(s[end..])
    decreases |s|
  {
    end := |s|;
    if s != [] && IsWhitespace(s[|s| - 1]) {
      var last := |s| - 1;
      end := TrimEndAt(s[..last]);
      assert forall i | end <= i < last :: s[i] == s[..last][end..][i - end];
    }
  }

  /** Trimming takes white space from both ends, all of it and nothing else. */
  lemma TrimExactlyBlank(s: string) returns (start: nat, end: nat)
    ensures start <= end <= |s| && Trim(s) == s[start..end] && Trimmed(s[start..end])
    ensures Blank(s[..start]) && Blank(s[end..])
  {
    start := TrimStartFrom(s);
    var kept := TrimEndAt(s[start..]);
    end := start + kept;
    TrimExactly(s);
    assert s[start..][kept..] == s[end..];
  }

  /** One space around a trimmed text. */
  lemma TrimSpace(s: string)
    requires Trimmed(s)
    ensures Trim([' '] + s) == s && Trim(s + [' ']) == s
  {
    TrimExactly(s);
    assert ([' '] + s)[1..] == s;
    assert TrimStart([' '] + s) == TrimStart(s);
    assert (s + [' '])[..|s|] == s;
    assert TrimEnd(s + [' ']) == TrimEnd(s);
    if s == [] {
      assert s + [' '] == [' '] + s;
    }
  }

  // ----- Finding characters

  /** Where the first of the given characters stands, or the length. */
  function Find(s: string, chars: set<char>): (k: nat)
    ensures k <= |s| && (k < |s| ==> s[k] in chars)
    ensures forall i | 0 <= i < k :: s[i] !in chars
  {
    if s == [] || s[0] in chars then 0 else 1 + Find(s[1..], chars)
  }

  lemma {:induction false} FindAfter(a: string, c: char, b: string, chars: set<char>)
    requires c in chars && forall i | 0 <= i < |a| :: a[i] !in chars
    ensures Find(a + [c] + b, chars) == |a|
    decreases |a|
  {
    if a != [] {
      assert (a + [c] + b)[1..] == a[1..] + [c] + b;
      FindAfter(a[1..], c, b, chars);
    }
  }

  // ----- Lines

  predicate HasNo(s: string, c: char) {
    forall i | 0 <= i < |s| :: s[i] != c
  }

  /** A line ends at a line feed, and a carriage return before the line feed belongs to the ending. */
  function Lines(s: string): seq<string>
    decreases |s|
  {
    if s == [] then []
    else
      var k := Find(s, {'\n'});
      if k == |s| then [s]
      else [if k > 0 && s[k - 1] == '\r' then s[..k - 1] else s[..k]] + Lines(s[k + 1..])
  }

  function Unlines(lines: seq<string>): string {
    if lines == [] then [] else lines[0] + ['\n'] + Unlines(lines[1..])
  }

  predicate IsLine(s: string) {
    HasNo(s, '\n') && HasNo(s, '\r')
  }

  lemma LinesFirst(line: string, rest: string)
    requires IsLine(line)
    ensures Lines(line + ['\n'] + rest) == [line] + Lines(rest)
  {
    var s := line + ['\n'] + rest;
    FindAfter(line, '\n', rest, {'\n'});
    assert s[..|line|] == line && s[|line| + 1..] == rest;
    assert |line| > 0 ==> s[|line| - 1] == line[|line| - 1];
  }

  lemma {:induction false} LinesOfUnlines(lines: seq<string>)
    requires forall i | 0 <= i < |lines| :: IsLine(lines[i])
    ensures Lines(Unlines(lines)) == lines
    decreases |lines|
  {
    if lines != [] {
      LinesOfUnlines(lines[1..]);
      LinesFirst(lines[0], Unlines(lines[1..]));
    }
  }

  lemma {:induction false} UnlinesAppend(a: seq<string>, b: seq<string>)
    ensures Unlines(a + b) == Unlines(a) + Unlines(b)
    decreases |a|
  {
    if a == [] {
      assert a + b == b;
    } else {
      assert (a + b)[1..] == a[1..] + b;
      UnlinesAppend(a[1..], b);
      assert a[0] + ['\n'] + (Unlines(a[1..]) + Unlines(b)) == a[0] + ['\n'] + Unlines(a[1..]) + Unlines(b);
    }
  }

  // ----- Names

  predicate IsWord(c: char) {
    '0' <= c <= '9' || 'A' <= c <= 'Z' || 'a' <= c <= 'z' || c == '_'
  }

  predicate Identifier(s: string) {
    s != [] && forall i | 0 <= i < |s| :: IsWord(s[i])
  }

  function LowerChar(c: char): char {
    if 'A' <= c <= 'Z' then ((c as int) + 32) as char else c
  }

  function Lower(s: string): string {
    seq(|s|, i requires 0 <= i < |s| => LowerChar(s[i]))
  }
}
