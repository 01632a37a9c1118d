/** One line feed for each line break of a Lua source, whichever of the four forms it has. */
module LineEndings {
  import opened Sequences

  predicate IsBreak(c: char) {
    c == '\r' || c == '\n'
  }

  function Partner(c: char): char {
    if c == '\r' then '\n' else '\r'
  }

  /** How many characters the line break at the beginning has. */
  function BreakLength(s: string): (k: nat)
    requires s != []
    ensures 1 <= k <= |s|
  {
    if |s| > 1 && s[1] == Partner(s[0]) then 2 else 1
  }

  function Normalized(s: string): string {
    if s == [] then []
    else if IsBreak(s[0]) then ['\n'] + Normalized(s[BreakLength(s)..])
    else [s[0]] + Normalized(s[1..])
  }

  method NormalizeLineEndings(source: string) returns (r: string)
    ensures r == Normalized(source)
  {
    if '\r' !in source {
      NothingToDo(source);
      return source;
    }
    var normalized := "";
    var characters := source;
    while characters != []
      invariant normalized + Normalized(characters) == Normalized(source)
      decreases |characters|
    {
      var c := characters[0];
      if IsBreak(c) {
        var rest := characters[BreakLength(characters)..];
        Associates(normalized, ['\n'], Normalized(rest));
        normalized, characters := normalized + ['\n'], rest;
      } else {
        Associates(normalized, [c], Normalized(characters[1..]));
        normalized, characters := normalized + [c], characters[1..];
      }
    }
    assert normalized + [] == normalized;
    return normalized;
  }

  /** Text without carriage returns stays as it is. */
  lemma {:induction false} NothingToDo(s: string)
    requires '\r' !in s
    ensures Normalized(s) == s
    decreases |s|
  {
    if s != [] {
      assert '\r' !in s[1..] by {
        assert forall c | c in s[1..] :: c in s;
      }
      NothingToDo(s[1..]);
      assert s == [s[0]] + s[1..];
      assert IsBreak(s[0]) ==> BreakLength(s) == 1;
    }
  }

  lemma {:induction false} NoCarriageReturn(s: string)
    ensures '\r' !in Normalized(s)
    decreases |s|
  {
    if s != [] {
      NoCarriageReturn(if IsBreak(s[0]) then s[BreakLength(s)..] else s[1..]);
    }
  }

  /** Normalizing twice is normalizing once. */
  lemma NormalizedOnce(s: string)
    ensures '\r' !in Normalized(s) && Normalized(Normalized(s)) == Normalized(s)
  {
    NoCarriageReturn(s);
    NothingToDo(Normalized(s));
  }

  // ----- Texts as lines with their endings

  predicate IsEnding(s: string) {
    s == "\n" || s == "\r" || s == "\r\n" || s == "\n\r"
  }

  /** The lines, each followed by its ending. */
  function Joined(lines: seq<string>, endings: seq<string>): string
    requires |lines| == |endings|
  {
    if lines == [] then [] else lines[0] + (endings[0] + Joined(lines[1..], endings[1..]))
  }

  /** The lines, each followed by a line feed. */
  function Unix(lines: seq<string>): string {
    if lines == [] then [] else lines[0] + ("\n" + Unix(lines[1..]))
  }

  /** No line break; possibly empty. */
  predicate IsLine(s: string) {
    forall i | 0 <= i < |s| :: !IsBreak(s[i])
  }

  ghost predicate IsReading(lines: seq<string>, endings: seq<string>) {
    |lines| == |endings| && forall i | 0 <= i < |lines| :: IsLine(lines[i]) && IsEnding(endings[i])
  }

  /** How many line breaks a text has. */
  function Breaks(s: string): nat {
    if s == [] then 0
    else if IsBreak(s[0]) then 1 + Breaks(s[BreakLength(s)..])
    else Breaks(s[1..])
  }

  lemma {:induction false} AfterLine(line: string, rest: string)
    requires IsLine(line)
    ensures Normalized(line + rest) == line + Normalized(rest) && Breaks(line + rest) == Breaks(rest)
    decreases |line|
  {
    if line == [] {
      assert line + rest == rest;
    } else {
      assert (line + rest)[1..] == line[1..] + rest;
      AfterLine(line[1..], rest);
      assert [line[0]] + line[1..] == line;
      Associates([line[0]], line[1..], Normalized(rest));
    }
  }

  /** The ending is the whole line break. */
  lemma AfterEnding(ending: string, rest: string)
    requires IsEnding(ending) && BreakLength(ending + rest) == |ending|
    ensures Normalized(ending + rest) == "\n" + Normalized(rest) && Breaks(ending + rest) == 1 + Breaks(rest)
  {
    assert (ending + rest)[|ending|..] == rest;
  }

  /** An ending is the whole line break unless it is one character and its partner follows. */
  lemma EndingIsBreak(ending: string, rest: string)
    requires IsEnding(ending)
    ensures BreakLength(ending + rest) == |ending| <==> |ending| == 2 || rest == [] || rest[0] != Partner(ending[0])
  {
    assert (ending + rest)[0] == ending[0];
    assert |ending| == 1 && rest != [] ==> (ending + rest)[1] == rest[0];
  }

  // ----- Readings in which some ending is only half a line break

  /** The next line is empty and the next ending begins with the partner of this one. */
  ghost predicate Torn(lines: seq<string>, endings: seq<string>)
    requires IsReading(lines, endings)
  {
    |lines| >= 2 && |endings[0]| == 1 && lines[1] == [] && endings[1][0] == Partner(endings[0][0])
  }

  lemma TornExactly(lines: seq<string>, endings: seq<string>, tail: string)
    requires IsReading(lines, endings) && lines != [] && IsLine(tail)
    ensures BreakLength(endings[0] + (Joined(lines[1..], endings[1..]) + tail)) == |endings[0]|
            <==> !Torn(lines, endings)
  {
    var rest := Joined(lines[1..], endings[1..]) + tail;
    EndingIsBreak(endings[0], rest);
    if |lines| >= 2 {
      assert rest == lines[1] + (endings[1] + Joined(lines[2..], endings[2..])) + tail by {
        assert lines[1..][1..] == lines[2..] && endings[1..][1..] == endings[2..];
      }
      assert rest[0] == if lines[1] == [] then endings[1][0] else lines[1][0];
    } else {
      assert rest == tail;
    }
  }

  lemma Unfolded(lines: seq<string>, endings: seq<string>, tail: string)
    requires |lines| == |endings| && lines != []
    ensures Joined(lines, endings) + tail == lines[0] + (endings[0] + (Joined(lines[1..], endings[1..]) + tail))
  {}

  lemma UnixUnfolded(lines: seq<string>, tail: string)
    requires lines != []
    ensures Unix(lines) + tail == lines[0] + ("\n" + (Unix(lines[1..]) + tail))
  {}

  /** Normalizing has as many breaks as the reading has endings exactly when it replaces those endings. */
  ghost predicate Exact(lines: seq<string>, endings: seq<string>, tail: string)
    requires |lines| == |endings|
  {
    var s := Joined(lines, endings) + tail;
    && Breaks(s) <= |lines|
    && (Breaks(s) == |lines| ==> Normalized(s) == Unix(lines) + tail)
  }

  /** The first ending is a line break of its own. */
  lemma WholeFirst(lines: seq<string>, endings: seq<string>, tail: string)
    requires IsReading(lines, endings) && lines != [] && IsLine(tail) && !Torn(lines, endings)
    requires Exact(lines[1..], endings[1..], tail)
    ensures Exact(lines, endings, tail)
  {
    var rest := Joined(lines[1..], endings[1..]) + tail;
    TornExactly(lines, endings, tail);
    Unfolded(lines, endings, tail);
    UnixUnfolded(lines, tail);
    AfterLine(lines[0], endings[0] + rest);
    AfterEnding(endings[0], rest);
  }

  lemma TornText(lines: seq<string>, endings: seq<string>, tail: string)
    requires IsReading(lines, endings) && Torn(lines, endings)
    ensures Joined(lines, endings) + tail
            == lines[0] + (endings[0] + (endings[1] + (Joined(lines[2..], endings[2..]) + tail)))
  {
    assert lines[1..][1..] == lines[2..] && endings[1..][1..] == endings[2..];
    Unfolded(lines, endings, tail);
    Unfolded(lines[1..], endings[1..], tail);
    assert [] + (endings[1] + (Joined(lines[2..], endings[2..]) + tail))
        == endings[1] + (Joined(lines[2..], endings[2..]) + tail);
  }

  lemma PairIsEnding(first: string, second: string)
    requires IsEnding(first) && IsEnding(second) && |first| == 1 && second[0] == Partner(first[0])
    ensures IsEnding(first + [second[0]])
  {}

  /** The next line break of a text takes two characters. */
  lemma AfterPair(line: string, pair: string, rest: string)
    requires IsLine(line) && IsEnding(pair) && |pair| == 2
    ensures Normalized(line + (pair + rest)) == line + ("\n" + Normalized(rest))
    ensures Breaks(line + (pair + rest)) == 1 + Breaks(rest)
  {
    EndingIsBreak(pair, rest);
    AfterEnding(pair, rest);
    AfterLine(line, pair + rest);
  }

  /** A torn pair of one-character endings is one line break. */
  lemma OneForTwo(lines: seq<string>, endings: seq<string>, tail: string)
    requires IsReading(lines, endings) && Torn(lines, endings) && |endings[1]| == 1 && IsLine(tail)
    requires Exact(lines[2..], endings[2..], tail)
    ensures Exact(lines, endings, tail)
  {
    var rest := Joined(lines[2..], endings[2..]) + tail;
    TornText(lines, endings, tail);
    PairIsEnding(endings[0], endings[1]);
    assert endings[1] == [endings[1][0]];
    Associates(endings[0], endings[1], rest);
    AfterPair(lines[0], endings[0] + endings[1], rest);
  }

  lemma LeftText(lines: seq<string>, endings: seq<string>, tail: string, left: string)
    requires |lines| == |endings| >= 2 && lines[1] == []
    ensures Joined(lines[1..], [left] + endings[2..]) + tail == left + (Joined(lines[2..], endings[2..]) + tail)
  {
    var ends := [left] + endings[2..];
    assert ends[1..] == endings[2..] && lines[1..][1..] == lines[2..];
    Unfolded(lines[1..], ends, tail);
    assert [] + (left + (Joined(lines[2..], endings[2..]) + tail)) == left + (Joined(lines[2..], endings[2..]) + tail);
  }

  /** A one-character ending takes its partner from the next one, whose other character is left. */
  lemma Shifted(lines: seq<string>, endings: seq<string>, tail: string, left: string)
    requires IsReading(lines, endings) && Torn(lines, endings) && |endings[1]| == 2 && IsLine(tail)
    requires left == [endings[1][1]] && Exact(lines[1..], [left] + endings[2..], tail)
    ensures Exact(lines, endings, tail)
  {
    var rest := Joined(lines[2..], endings[2..]) + tail;
    var pair := endings[0] + [endings[1][0]];
    TornText(lines, endings, tail);
    LeftText(lines, endings, tail, left);
    PairIsEnding(endings[0], endings[1]);
    Regrouped(endings[0], endings[1], left, rest);
    AfterPair(lines[0], pair, left + rest);
    UnixUnfolded(lines, tail);
  }

  lemma Regrouped(first: string, second: string, left: string, rest: string)
    requires |second| == 2 && left == [second[1]]
    ensures first + (second + rest) == first + [second[0]] + (left + rest)
  {
    assert second == [second[0]] + left;
  }

  lemma {:induction false} ReadingExact(lines: seq<string>, endings: seq<string>, tail: string)
    requires IsReading(lines, endings) && IsLine(tail)
    ensures Exact(lines, endings, tail)
    decreases |lines|
  {
    if lines == [] {
      AfterLine(tail, []);
      assert tail + [] == tail && [] + tail == tail;
    } else if !Torn(lines, endings) {
      ReadingExact(lines[1..], endings[1..], tail);
      WholeFirst(lines, endings, tail);
    } else if |endings[1]| == 1 {
      ReadingExact(lines[2..], endings[2..], tail);
      OneForTwo(lines, endings, tail);
    } else {
      var left := [endings[1][1]];
      ReadingExact(lines[1..], [left] + endings[2..], tail);
      Shifted(lines, endings, tail, left);
    }
  }

  // ----- The exact condition

  lemma {:induction false} UnixBreaks(lines: seq<string>, tail: string)
    requires IsLine(tail) && forall i | 0 <= i < |lines| :: IsLine(lines[i])
    ensures LineFeeds(Unix(lines) + tail) == |lines|
    decreases |lines|
  {
    if lines == [] {
      LineFeedsAfter(tail, []);
      assert tail + [] == tail && [] + tail == tail;
    } else {
      UnixBreaks(lines[1..], tail);
      UnixUnfolded(lines, tail);
      LineFeedsAfter(lines[0], "\n" + (Unix(lines[1..]) + tail));
      assert ("\n" + (Unix(lines[1..]) + tail))[1..] == Unix(lines[1..]) + tail;
    }
  }

  function LineFeeds(s: string): nat {
    if s == [] then 0 else (if s[0] == '\n' then 1 else 0) + LineFeeds(s[1..])
  }

  lemma {:induction false} LineFeedsAfter(line: string, rest: string)
    requires IsLine(line)
    ensures LineFeeds(line + rest) == LineFeeds(rest)
    decreases |line|
  {
    if line == [] {
      assert line + rest == rest;
    } else {
      assert (line + rest)[1..] == line[1..] + rest;
      LineFeedsAfter(line[1..], rest);
    }
  }

  lemma {:induction false} NormalizedFeeds(s: string)
    ensures LineFeeds(Normalized(s)) == Breaks(s)
    decreases |s|
  {
    if s != [] {
      var rest := if IsBreak(s[0]) then s[BreakLength(s)..] else s[1..];
      NormalizedFeeds(rest);
      assert Normalized(s)[1..] == Normalized(rest);
    }
  }

  /** Whichever of the four breaks end the lines, empty ones included: each ending becomes one line feed exactly when
      the text has as many line breaks as the reading has endings; it never has more. */
  lemma EndingsDoNotMatter(lines: seq<string>, endings: seq<string>, tail: string)
    requires IsReading(lines, endings) && IsLine(tail)
    ensures Breaks(Joined(lines, endings) + tail) <= |endings|
    ensures Normalized(Joined(lines, endings) + tail) == Unix(lines) + tail
            <==> Breaks(Joined(lines, endings) + tail) == |endings|
  {
    ReadingExact(lines, endings, tail);
    UnixBreaks(lines, tail);
    NormalizedFeeds(Joined(lines, endings) + tail);
  }

  // ----- Every text has exactly one reading without torn line breaks

  ghost predicate Canonical(lines: seq<string>, endings: seq<string>) {
    IsReading(lines, endings) && forall i | 0 <= i < |lines| :: !Torn(lines[i..], endings[i..])
  }

  lemma CanonicalRest(lines: seq<string>, endings: seq<string>)
    requires Canonical(lines, endings) && lines != []
    ensures Canonical(lines[1..], endings[1..]) && !Torn(lines, endings)
  {
    assert lines[0..] == lines && endings[0..] == endings;
    forall i | 0 <= i < |lines[1..]| ensures !Torn(lines[1..][i..], endings[1..][i..]) {
      assert lines[1..][i..] == lines[i + 1..] && endings[1..][i..] == endings[i + 1..];
    }
  }

  lemma {:induction false} CanonicalBreaks(lines: seq<string>, endings: seq<string>, tail: string)
    requires Canonical(lines, endings) && IsLine(tail)
    ensures Breaks(Joined(lines, endings) + tail) == |endings|
    decreases |lines|
  {
    if lines == [] {
      AfterLine(tail, []);
      assert tail + [] == tail && [] + tail == tail;
    } else {
      CanonicalRest(lines, endings);
      CanonicalBreaks(lines[1..], endings[1..], tail);
      var rest := Joined(lines[1..], endings[1..]) + tail;
      TornExactly(lines, endings, tail);
      Unfolded(lines, endings, tail);
      AfterLine(lines[0], endings[0] + rest);
      AfterEnding(endings[0], rest);
    }
  }

  lemma CanonicalMore(lines: seq<string>, endings: seq<string>)
    requires IsReading(lines, endings) && lines != [] && !Torn(lines, endings)
    requires Canonical(lines[1..], endings[1..])
    ensures Canonical(lines, endings)
  {
    forall i | 0 <= i < |lines| ensures !Torn(lines[i..], endings[i..]) {
      if i == 0 {
        assert lines[0..] == lines && endings[0..] == endings;
      } else {
        assert lines[1..][i - 1..] == lines[i..] && endings[1..][i - 1..] == endings[i..];
      }
    }
  }

  /** A line break before a text. */
  lemma ReadBreak(ending: string, lines: seq<string>, endings: seq<string>, tail: string)
    requires IsEnding(ending) && Canonical(lines, endings) && IsLine(tail)
    requires BreakLength(ending + (Joined(lines, endings) + tail)) == |ending|
    ensures Canonical([""] + lines, [ending] + endings)
    ensures Joined([""] + lines, [ending] + endings) + tail == ending + (Joined(lines, endings) + tail)
  {
    var more, ends := [""] + lines, [ending] + endings;
    assert more[1..] == lines && ends[1..] == endings;
    assert IsReading(more, ends);
    TornExactly(more, ends, tail);
    CanonicalMore(more, ends);
    Unfolded(more, ends, tail);
  }

  /** Another character before a text. */
  lemma ReadChar(c: char, lines: seq<string>, endings: seq<string>, tail: string)
    requires !IsBreak(c) && Canonical(lines, endings) && lines != []
    ensures Canonical([[c] + lines[0]] + lines[1..], endings)
    ensures Joined([[c] + lines[0]] + lines[1..], endings) + tail == [c] + (Joined(lines, endings) + tail)
  {
    var more := [[c] + lines[0]] + lines[1..];
    assert more[1..] == lines[1..];
    CanonicalRest(lines, endings);
    assert IsReading(more, endings);
    assert !Torn(more, endings) by {
      assert |more| >= 2 ==> more[1] == lines[1];
    }
    CanonicalMore(more, endings);
  }

  /** Every text has a reading in which no line break is torn. */
  lemma {:induction false} Read(s: string) returns (lines: seq<string>, endings: seq<string>, tail: string)
    ensures Canonical(lines, endings) && IsLine(tail) && Joined(lines, endings) + tail == s
    decreases |s|
  {
    if s == [] {
      lines, endings, tail := [], [], [];
    } else if IsBreak(s[0]) {
      var ending, rest := s[..BreakLength(s)], s[BreakLength(s)..];
      lines, endings, tail := Read(rest);
      assert s == ending + rest;
      ReadBreak(ending, lines, endings, tail);
      lines, endings := [""] + lines, [ending] + endings;
    } else {
      assert s == [s[0]] + s[1..];
      lines, endings, tail := Read(s[1..]);
      if lines == [] {
        assert [] + tail == tail;
        tail := [s[0]] + tail;
        assert [] + tail == tail;
      } else {
        ReadChar(s[0], lines, endings, tail);
        lines := [[s[0]] + lines[0]] + lines[1..];
      }
    }
  }

  function FirstBreak(s: string): nat {
    if s == [] || IsBreak(s[0]) then 0 else 1 + FirstBreak(s[1..])
  }

  lemma {:induction false} FirstBreakAfter(line: string, rest: string)
    requires IsLine(line) && rest != [] && IsBreak(rest[0])
    ensures FirstBreak(line + rest) == |line|
    decreases |line|
  {
    if line == [] {
      assert line + rest == rest;
    } else {
      assert (line + rest)[1..] == line[1..] + rest;
      FirstBreakAfter(line[1..], rest);
    }
  }

  /** The first line, its ending and the rest of a text are determined by the text. */
  lemma FirstDetermined(line: string, ending: string, rest: string, line': string, ending': string, rest': string)
    requires IsLine(line) && IsLine(line') && IsEnding(ending) && IsEnding(ending')
    requires BreakLength(ending + rest) == |ending| && BreakLength(ending' + rest') == |ending'|
    requires line + (ending + rest) == line' + (ending' + rest')
    ensures line == line' && ending == ending' && rest == rest'
  {
    var s := line + (ending + rest);
    FirstBreakAfter(line, ending + rest);
    FirstBreakAfter(line', ending' + rest');
    assert line == s[..|line|] && line' == s[..|line'|];
    assert ending + rest == s[|line|..] && ending' + rest' == s[|line'|..];
    assert (ending + rest)[..|ending|] == ending && (ending' + rest')[..|ending'|] == ending';
    assert (ending + rest)[|ending|..] == rest && (ending' + rest')[|ending'|..] == rest';
  }

  /** There is only one such reading. */
  lemma {:induction false} ReadingUnique(lines: seq<string>, endings: seq<string>, tail: string,
                                         lines': seq<string>, endings': seq<string>, tail': string)
    requires Canonical(lines, endings) && Canonical(lines', endings') && IsLine(tail) && IsLine(tail')
    requires Joined(lines, endings) + tail == Joined(lines', endings') + tail'
    ensures lines == lines' && endings == endings' && tail == tail'
    decreases |lines|
  {
    CanonicalBreaks(lines, endings, tail);
    CanonicalBreaks(lines', endings', tail');
    if lines == [] {
      assert [] + tail == tail && [] + tail' == tail';
    } else {
      CanonicalRest(lines, endings);
      CanonicalRest(lines', endings');
      TornExactly(lines, endings, tail);
      TornExactly(lines', endings', tail');
      Unfolded(lines, endings, tail);
      Unfolded(lines', endings', tail');
      FirstDetermined(lines[0], endings[0], Joined(lines[1..], endings[1..]) + tail,
                      lines'[0], endings'[0], Joined(lines'[1..], endings'[1..]) + tail');
      ReadingUnique(lines[1..], endings[1..], tail, lines'[1..], endings'[1..], tail');
      assert lines == [lines[0]] + lines[1..] && lines' == [lines'[0]] + lines'[1..];
      assert endings == [endings[0]] + endings[1..] && endings' == [endings'[0]] + endings'[1..];
    }
  }

  /** Every text is read in exactly one way as lines with whole line breaks, and normalizing replaces exactly those
      breaks by line feeds. */
  lemma NormalizedExactly(s: string) returns (lines: seq<string>, endings: seq<string>, tail: string)
    ensures Canonical(lines, endings) && IsLine(tail) && Joined(lines, endings) + tail == s
    ensures Normalized(s) == Unix(lines) + tail
    ensures forall l, e, t | Canonical(l, e) && IsLine(t) && Joined(l, e) + t == s ::
              l == lines && e == endings && t == tail
  {
    lines, endings, tail := Read(s);
    CanonicalBreaks(lines, endings, tail);
    EndingsDoNotMatter(lines, endings, tail);
    forall l, e, t | Canonical(l, e) && IsLine(t) && Joined(l, e) + t == s
      ensures l == lines && e == endings && t == tail
    {
      ReadingUnique(l, e, t, lines, endings, tail);
    }
  }
}
