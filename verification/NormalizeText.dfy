/**
 * The staged rewriter `normalize_text` in
 * scripts/normalize_conversation_corpus.py.  NFC normalization (Unicode Standard
 * Annex #15) is a function parameter; every other stage is concrete.
 */
module NormalizeText {
  import opened Text

  const ESC := '\U{1B}'
  const NBSP := '\U{A0}'
  const LINE_SEP := '\U{2028}'
  const PARA_SEP := '\U{2029}'

  // ------------------------------------------------------------ line terminators

  /** `text.replace("\r\n", "\n")`. */
  function CrlfToLf(s: string): string {
    if s == "" then ""
    else if |s| >= 2 && s[0] == '\r' && s[1] == '\n' then "\n" + CrlfToLf(s[2..])
    else [s[0]] + CrlfToLf(s[1..])
  }

  /** `text.count("\r\n")`. */
  function CountCrlf(s: string): nat {
    if |s| < 2 then 0
    else if s[0] == '\r' && s[1] == '\n' then 1 + CountCrlf(s[2..])
    else CountCrlf(s[1..])
  }

  /** `text.count(c)`. */
  function Count(s: string, c: char): (n: nat)
    ensures n == 0 <==> c !in s
  {
    if s == "" then 0 else (if s[0] == c then 1 else 0) + Count(s[1..], c)
  }

  function Unix(s: string): string {
    Replace(CrlfToLf(s), '\r', "\n")
  }

  /** One pass in which CR LF, a lone CR and LF each end one line. */
  function EndLines(s: string): string {
    if s == "" then ""
    else if s[0] != '\r' then [s[0]] + EndLines(s[1..])
    else if |s| >= 2 && s[1] == '\n' then "\n" + EndLines(s[2..])
    else "\n" + EndLines(s[1..])
  }

  /** The two replacements together treat every line terminator as one line feed. */
  lemma {:induction false} UnixEndsLines(s: string)
    ensures Unix(s) == EndLines(s)
  {
    if s != "" {
      var pair := |s| >= 2 && s[0] == '\r' && s[1] == '\n';
      var rest := s[if pair then 2 else 1..];
      UnixEndsLines(rest);
      var first := if pair then '\n' else s[0];
      assert CrlfToLf(s) == [first] + CrlfToLf(rest);
      assert CrlfToLf(s)[1..] == CrlfToLf(rest);
    }
  }

  lemma {:induction false} CrlfAbsent(s: string)
    ensures CountCrlf(s) == 0 ==> CrlfToLf(s) == s
    ensures '\r' !in s ==> CountCrlf(s) == 0
    ensures CountCrlf(s) > 0 ==> |CrlfToLf(s)| < |s|
    ensures |CrlfToLf(s)| <= |s|
  {
    if s != "" {
      var pair := |s| >= 2 && s[0] == '\r' && s[1] == '\n';
      var rest := s[if pair then 2 else 1..];
      CrlfAbsent(rest);
      assert s == [s[0]] + s[1..];
      if !pair {
        assert |s| < 2 ==> rest == "";
        assert CountCrlf(s) == CountCrlf(rest);
      }
    }
  }

  lemma UnixFixed(s: string)
    requires '\r' !in s
    ensures Unix(s) == s
  {
    CrlfAbsent(s);
    ReplaceAbsent(s, '\r', "\n");
  }

  // -------------------------------------------------------------- escape sequences

  /** Length of the longest prefix whose characters lie between two bounds. */
  function Run(s: string, low: char, high: char): (n: nat)
    ensures n <= |s|
  {
    if s != "" && low <= s[0] <= high then 1 + Run(s[1..], low, high) else 0
  }

  /** The second alternative of ANSI_ESCAPE_RE behind ESC: a control sequence with parameters. */
  function CsiLength(s: string): nat {
    if s == "" || s[0] != '[' then 0
    else
      var parameters := 1 + Run(s[1..], '0', '?');
      var intermediates := parameters + Run(s[parameters..], ' ', '/');
      if intermediates < |s| && '@' <= s[intermediates] <= '~' then intermediates + 1 else 0
  }

  /** ESC and one character of the first alternative. */
  predicate EscapeAt(s: string) {
    |s| >= 2 && s[0] == ESC && '@' <= s[1] <= '_'
  }

  /** The first alternative behind ESC: one character. */
  function OneLength(s: string): nat {
    if s != "" && '@' <= s[0] <= '_' then 1 else 0
  }

  /** Length of a match of ANSI_ESCAPE_RE at the start of the text, 0 for none; alternatives in order. */
  function EscapeLength(s: string): (n: nat)
    ensures n == if EscapeAt(s) then 2 else 0
  {
    if s == "" || s[0] != ESC then 0
    else
      var one, csi := OneLength(s[1..]), CsiLength(s[1..]);
      var n := if one > 0 then one else csi;
      if n > 0 then 1 + n else 0
  }

  /** `ANSI_ESCAPE_RE.subn("", text)`. */
  function StripEscapes(s: string): (r: (string, nat))
    ensures |r.0| + 2 * r.1 == |s|
    ensures ESC !in s ==> r.1 == 0
    ensures r.1 == 0 ==> r.0 == s
  {
    if s == "" then ("", 0)
    else if EscapeAt(s) then
      var rest := StripEscapes(s[2..]);
      (rest.0, rest.1 + 1)
    else
      var rest := StripEscapes(s[1..]);
      ([s[0]] + rest.0, rest.1)
  }

  /** The substitution takes out exactly the matches of the pattern, scanning from left to right. */
  lemma StripsMatches(s: string)
    requires s != ""
    ensures var n := EscapeLength(s);
            var rest := StripEscapes(s[if n > 0 then n else 1..]);
            StripEscapes(s) == if n > 0 then (rest.0, rest.1 + 1) else ([s[0]] + rest.0, rest.1)
  {
    hide EscapeLength, EscapeAt;
    if EscapeAt(s) {
      assert EscapeLength(s) == 2;
    } else {
      assert EscapeLength(s) == 0;
    }
  }

  /** Only two characters of a control sequence disappear; its parameters and final byte stay. */
  lemma ParametersStay(parameters: string, rest: string)
    requires ESC !in parameters + rest
    ensures StripEscapes([ESC, '['] + parameters + rest) == (parameters + rest, 1)
  {
    var s := [ESC, '['] + parameters + rest;
    assert s[2..] == parameters + rest;
  }

  // ------------------------------------------------------------------------ filter

  /** Unicode category Cc. */
  predicate Control(c: char) {
    c <= '\U{1F}' || '\U{7F}' <= c <= '\U{9F}'
  }

  predicate DroppedControl(c: char) {
    Control(c) && c != '\n' && c != '\t'
  }

  /** Which code points are dropped: the controls of category Cc but TAB and LF, and two format characters. */
  lemma DroppedMeans(c: char)
    ensures var n := c as int;
            && (DroppedControl(c) <==> n <= 8 || 11 <= n <= 31 || 127 <= n <= 159)
            && (DroppedFormat(c) <==> n == 0x200B || n == 0xFEFF)
  {
  }

  predicate DroppedFormat(c: char) {
    c == '\U{200B}' || c == '\U{FEFF}'
  }

  predicate Dropped(c: char) {
    DroppedControl(c) || DroppedFormat(c)
  }

  function Respace(s: string): string {
    Replace(Replace(Replace(s, NBSP, " "), LINE_SEP, "\n"), PARA_SEP, "\n")
  }

  /** A no-break space turns into a space and each of the two separators into a line feed; all else stays. */
  lemma RespaceAt(s: string)
    ensures |Respace(s)| == |s|
    ensures forall i :: 0 <= i < |s| ==>
              Respace(s)[i] == if s[i] == NBSP then ' ' else if s[i] == LINE_SEP || s[i] == PARA_SEP then '\n' else s[i]
  {
    ReplaceAt(s, NBSP, ' ');
    ReplaceAt(Replace(s, NBSP, " "), LINE_SEP, '\n');
    ReplaceAt(Replace(Replace(s, NBSP, " "), LINE_SEP, "\n"), PARA_SEP, '\n');
  }

  lemma {:induction false} ReplaceAt(s: string, from: char, to: char)
    ensures |Replace(s, from, [to])| == |s|
    ensures forall i :: 0 <= i < |s| ==> Replace(s, from, [to])[i] == if s[i] == from then to else s[i]
  {
    if s != "" {
      ReplaceAt(s[1..], from, to);
    }
  }

  function Filter(s: string): string {
    if s == "" then ""
    else
      var n := |s| - 1;
      if Dropped(s[n]) then Filter(s[..n]) else Filter(s[..n]) + [s[n]]
  }

  lemma {:induction false} FilterMembers(s: string)
    ensures forall c :: c in Filter(s) <==> c in s && !Dropped(c)
  {
    hide Dropped;
    if s != "" {
      FilterMembers(s[..|s| - 1]);
      assert s == s[..|s| - 1] + [s[|s| - 1]];
    }
  }

  function CountControls(s: string): nat {
    if s == "" then 0 else CountControls(s[..|s| - 1]) + if DroppedControl(s[|s| - 1]) then 1 else 0
  }

  function CountFormats(s: string): nat {
    if s == "" then 0 else CountFormats(s[..|s| - 1]) + if DroppedFormat(s[|s| - 1]) then 1 else 0
  }

  lemma {:induction false} FilterLength(s: string)
    ensures |Filter(s)| + CountControls(s) + CountFormats(s) == |s|
  {
    hide Control, DroppedFormat;
    if s != "" {
      FilterLength(s[..|s| - 1]);
      ControlIsNoFormat(s[|s| - 1]);
    }
  }

  lemma {:induction false} NoControls(s: string)
    ensures CountControls(s) == 0 <==> forall c :: c in s ==> !DroppedControl(c)
  {
    hide DroppedControl;
    if s != "" {
      NoControls(s[..|s| - 1]);
      assert s == s[..|s| - 1] + [s[|s| - 1]];
    }
  }

  lemma {:induction false} NoFormats(s: string)
    ensures CountFormats(s) == 0 <==> forall c :: c in s ==> !DroppedFormat(c)
  {
    hide DroppedFormat;
    if s != "" {
      NoFormats(s[..|s| - 1]);
      assert s == s[..|s| - 1] + [s[|s| - 1]];
    }
  }

  lemma {:induction false} FilterFixed(s: string)
    requires forall c :: c in s ==> !Dropped(c)
    ensures Filter(s) == s
  {
    if s != "" {
      FilterFixed(s[..|s| - 1]);
      assert s == s[..|s| - 1] + [s[|s| - 1]];
    }
  }

  /** The filter and its two counters account for every character. */
  lemma FilterCounts(s: string)
    ensures |Filter(s)| + CountControls(s) + CountFormats(s) == |s|
    ensures CountControls(s) == 0 && CountFormats(s) == 0 <==> forall c :: c in s ==> !Dropped(c)
    ensures (forall c :: c in s ==> !Dropped(c)) ==> Filter(s) == s
  {
    hide Filter, CountControls, CountFormats, DroppedControl, DroppedFormat;
    FilterLength(s);
    NoControls(s);
    NoFormats(s);
    if forall c :: c in s ==> !Dropped(c) {
      FilterFixed(s);
    }
  }

  lemma {:induction false} FilterAppend(a: string, b: string)
    ensures Filter(a + b) == Filter(a) + Filter(b)
  {
    if b == "" {
      assert a + b == a;
    } else {
      var n := |b| - 1;
      assert (a + b)[..|a + b| - 1] == a + b[..n];
      FilterAppend(a, b[..n]);
    }
  }

  // -------------------------------------------------------------- trailing blanks

  predicate Blank(c: char) {
    c == ' ' || c == '\t'
  }

  /** No blank stands at the end of a line. */
  ghost predicate NoTrailing(s: string) {
    forall i :: 0 <= i < |s| && Blank(s[i]) ==> i + 1 < |s| && s[i + 1] != '\n'
  }

  /** `TRAILING_HORIZONTAL_RE.subn("", text)` without its count. */
  function TrimLines(s: string): string {
    if s == "" then ""
    else
      var rest := TrimLines(s[1..]);
      if Blank(s[0]) && (rest == "" || rest[0] == '\n') then rest else [s[0]] + rest
  }

  lemma {:induction false} TrimClean(s: string)
    ensures NoTrailing(TrimLines(s))
    ensures forall c :: c in TrimLines(s) ==> c in s
  {
    if s != "" {
      TrimClean(s[1..]);
    }
  }

  /** Its count: blanks directly before a line feed or the end, one for each run. */
  function TrailingRuns(s: string): nat {
    if s == "" then 0
    else TrailingRuns(s[1..]) + if Blank(s[0]) && (|s| == 1 || s[1] == '\n') then 1 else 0
  }

  /** Each maximal run of blanks before a line feed or the end counts once. */
  lemma {:induction false} TrimmedRuns(blanks: string, rest: string)
    requires blanks != "" && (forall c :: c in blanks ==> c == ' ' || c == '\t')
    requires rest != "" ==> rest[0] != ' ' && rest[0] != '\t'
    ensures TrailingRuns(blanks + rest) == TrailingRuns(rest) + if rest == "" || rest[0] == '\n' then 1 else 0
    ensures rest != "" ==> TrailingRuns(rest) == TrailingRuns(rest[1..])
  {
    var s := blanks + rest;
    assert blanks[0] in blanks;
    if |blanks| == 1 {
      assert s[1..] == rest;
    } else {
      assert blanks[1] in blanks;
      assert forall c :: c in blanks[1..] ==> c in blanks;
      TrimmedRuns(blanks[1..], rest);
      assert s[1..] == blanks[1..] + rest;
    }
  }

  lemma {:induction false} TrimFixed(s: string)
    ensures TrailingRuns(s) == 0 <==> NoTrailing(s)
    ensures NoTrailing(s) ==> TrimLines(s) == s
  {
    if s != "" {
      TrimFixed(s[1..]);
      if NoTrailing(s) {
        assert forall i :: 0 <= i < |s[1..]| ==> s[1..][i] == s[i + 1];
      }
      if TrailingRuns(s) == 0 {
        forall i | 0 <= i < |s| && Blank(s[i])
          ensures i + 1 < |s| && s[i + 1] != '\n'
        {
          if i > 0 {
            assert s[1..][i - 1] == s[i];
          }
        }
      }
    }
  }

  /** `line.rstrip(" \t")`. */
  function RStripBlanks(line: string): string {
    if line == "" then ""
    else if Blank(line[|line| - 1]) then RStripBlanks(line[..|line| - 1]) else line
  }

  function RStripEach(lines: seq<string>): (r: seq<string>)
    ensures |r| == |lines|
  {
    if lines == [] then [] else [RStripBlanks(lines[0])] + RStripEach(lines[1..])
  }

  lemma {:induction false} RStripFirst(c: char, line: string)
    ensures RStripBlanks([c] + line) == if Blank(c) && RStripBlanks(line) == "" then "" else [c] + RStripBlanks(line)
  {
    var all := [c] + line;
    if line == "" {
      assert all[..0] == "";
      assert [c] + RStripBlanks(line) == all;
    } else {
      var n := |line| - 1;
      assert all[..|all| - 1] == [c] + line[..n];
      if Blank(line[n]) {
        RStripFirst(c, line[..n]);
      }
    }
  }

  lemma JoinStep(first: string, rest: seq<string>)
    ensures Join([first] + rest, '\n') == if rest == [] then first else first + "\n" + Join(rest, '\n')
  {
    assert ([first] + rest)[1..] == rest;
  }

  lemma SplitStep(c: char, t: string)
    ensures Split([c] + t, '\n') ==
            if c == '\n' then [""] + Split(t, '\n') else [[c] + Split(t, '\n')[0]] + Split(t, '\n')[1..]
  {
    assert ([c] + t)[1..] == t;
  }

  lemma TrimStep(c: char, t: string)
    ensures var rest := TrimLines(t);
            TrimLines([c] + t) == if Blank(c) && (rest == "" || rest[0] == '\n') then rest else [c] + rest
  {
    assert ([c] + t)[1..] == t;
  }

  lemma RStripStep(line: string, rest: seq<string>)
    ensures RStripEach([line] + rest) == [RStripBlanks(line)] + RStripEach(rest)
  {
    assert ([line] + rest)[1..] == rest;
  }

  /** What joined lines start with. */
  lemma FirstOfJoin(line: string, rest: seq<string>)
    requires '\n' !in line
    ensures var j := Join([line] + rest, '\n'); line == "" <==> j == "" || j[0] == '\n'
  {
    hide Join;
    JoinStep(line, rest);
    assert line != "" ==> line[0] in line;
  }

  lemma JoinLonger(c: char, line: string, rest: seq<string>)
    ensures Join([[c] + line] + rest, '\n') == [c] + Join([line] + rest, '\n')
  {
    hide Join;
    JoinStep([c] + line, rest);
    JoinStep(line, rest);
    if rest != [] {
      assert [c] + line + "\n" + Join(rest, '\n') == [c] + (line + "\n" + Join(rest, '\n'));
    }
  }

  lemma {:induction false} RStripFree(line: string)
    requires '\n' !in line
    ensures '\n' !in RStripBlanks(line)
  {
    if line != "" {
      RStripFree(line[..|line| - 1]);
    }
  }

  /** A character other than a line feed goes in front of the first line. */
  lemma TrimFirstLine(c: char, t: string, line: string, rest: seq<string>)
    requires c != '\n' && '\n' !in line
    requires TrimLines(t) == Join(RStripEach([line] + rest), '\n')
    ensures TrimLines([c] + t) == Join(RStripEach([[c] + line] + rest), '\n')
  {
    hide Join, TrimLines, RStripEach, RStripBlanks;
    var tail := RStripEach(rest);
    RStripStep(line, rest);
    RStripStep([c] + line, rest);
    RStripFirst(c, line);
    RStripFree(line);
    TrimStep(c, t);
    FirstOfJoin(RStripBlanks(line), tail);
    JoinLonger(c, RStripBlanks(line), tail);
  }

  /** Trimming the text is trimming each of its lines. */
  lemma {:induction false} TrimIsPerLine(s: string)
    ensures TrimLines(s) == Join(RStripEach(Split(s, '\n')), '\n')
  {
    if s == "" {
      RStripStep("", []);
      assert [""] + [] == [""];
    } else {
      hide Join, Split, TrimLines, RStripEach, RStripBlanks;
      var c, t := s[0], s[1..];
      assert s == [c] + t;
      TrimIsPerLine(t);
      SplitStep(c, t);
      var lines := Split(t, '\n');
      if c == '\n' {
        RStripStep("", lines);
        RStripEmpty();
        TrimStep(c, t);
        JoinStep("", RStripEach(lines));
      } else {
        assert lines == [lines[0]] + lines[1..];
        assert Free(lines[0], '\n');
        TrimFirstLine(c, t, lines[0], lines[1..]);
      }
    }
  }

  lemma RStripEmpty()
    ensures RStripBlanks("") == ""
  {
  }

  // ------------------------------------------------------------------- blank lines

  predicate FourFeeds(s: string, i: nat) {
    i + 4 <= |s| && s[i] == '\n' && s[i + 1] == '\n' && s[i + 2] == '\n' && s[i + 3] == '\n'
  }

  /** No run of four line feeds. */
  ghost predicate NoLongRun(s: string) {
    forall i: nat :: !FourFeeds(s, i)
  }

  /** `EXCESS_BLANK_LINES_RE.subn("\n\n\n", text)` without its count. */
  function Collapse(s: string): (r: string)
    ensures |r| <= |s| && (r == "" <==> s == "") && (s != "" ==> r[0] == s[0])
  {
    if s == "" then ""
    else
      var all := [s[0]] + Collapse(s[1..]);
      if FourFeeds(all, 0) then all[1..] else all
  }

  /** Its count: ends of runs of four or more. */
  function LongRuns(s: string): nat {
    if s == "" then 0
    else LongRuns(s[1..]) + if FourFeeds(s, 0) && (|s| == 4 || s[4] != '\n') then 1 else 0
  }

  /** Each maximal run of four or more line feeds counts once. */
  lemma {:induction false} CollapsedRuns(n: nat, rest: string)
    requires rest == "" || rest[0] != '\n'
    ensures LongRuns(LineFeeds(n) + rest) == LongRuns(rest) + if n >= 4 then 1 else 0
    ensures rest != "" ==> LongRuns(rest) == LongRuns(rest[1..])
  {
    if n == 0 {
      assert LineFeeds(n) + rest == rest;
    } else {
      hide LineFeeds;
      CollapsedRuns(n - 1, rest);
      FeedsStart(n, rest);
    }
  }

  lemma FeedsStart(n: nat, rest: string)
    requires n > 0 && (rest == "" || rest[0] != '\n')
    ensures var s := LineFeeds(n) + rest;
            && s[1..] == LineFeeds(n - 1) + rest
            && (FourFeeds(s, 0) && (|s| == 4 || s[4] != '\n') <==> n == 4)
  {
    var s := LineFeeds(n) + rest;
    assert LineFeeds(n)[1..] == LineFeeds(n - 1);
    hide LineFeeds;
    assert forall i :: 0 <= i < n ==> s[i] == '\n';
    assert rest != "" ==> s[n] == rest[0];
  }

  lemma {:induction false} CollapseClean(s: string)
    ensures NoLongRun(Collapse(s))
    ensures NoTrailing(s) ==> NoTrailing(Collapse(s))
  {
    if s != "" {
      CollapseClean(s[1..]);
      var rest := Collapse(s[1..]);
      var all := [s[0]] + rest;
      if !FourFeeds(all, 0) {
        forall i: nat
          ensures !FourFeeds(all, i)
        {
          if i > 0 {
            assert !FourFeeds(rest, i - 1);
          }
        }
      } else {
        assert all[1..] == rest;
      }
      if NoTrailing(s) {
        assert forall i :: 0 <= i < |s[1..]| ==> s[1..][i] == s[i + 1];
        assert NoTrailing(s[1..]);
        assert Blank(s[0]) ==> rest != "" && rest[0] == s[1] != '\n';
        assert NoTrailing(all);
      }
    }
  }

  lemma {:induction false} CollapseMembers(s: string)
    ensures forall c :: c in Collapse(s) ==> c in s
  {
    if s != "" {
      CollapseMembers(s[1..]);
      assert s == [s[0]] + s[1..];
    }
  }

  lemma {:induction false} CollapseFixed(s: string)
    ensures LongRuns(s) == 0 <==> NoLongRun(s)
    ensures NoLongRun(s) ==> Collapse(s) == s
  {
    if s != "" {
      CollapseFixed(s[1..]);
      assert s == [s[0]] + s[1..];
      forall i: nat
        ensures FourFeeds(s[1..], i) == FourFeeds(s, i + 1)
      {
      }
      if LongRuns(s) == 0 {
        forall i: nat
          ensures !FourFeeds(s, i)
        {
          if i > 0 {
            assert !FourFeeds(s[1..], i - 1);
          } else if FourFeeds(s, 0) {
            assert FourFeeds(s[1..], 0);
          }
        }
      }
    }
  }

  function LineFeeds(n: nat): (r: string)
    ensures |r| == n && forall i :: 0 <= i < n ==> r[i] == '\n'
  {
    if n == 0 then "" else "\n" + LineFeeds(n - 1)
  }

  lemma CollapseStep(c: char, rest: string)
    ensures var all := [c] + Collapse(rest);
            Collapse([c] + rest) == if FourFeeds(all, 0) then Collapse(rest) else all
  {
    assert ([c] + rest)[1..] == rest;
    assert ([c] + Collapse(rest))[1..] == Collapse(rest);
  }

  lemma FeedsBefore(m: nat, rest: string)
    requires m <= 3 && (rest == "" || rest[0] != '\n')
    ensures FourFeeds("\n" + (LineFeeds(m) + rest), 0) <==> m == 3
  {
    hide LineFeeds;
    var all := "\n" + (LineFeeds(m) + rest);
    assert forall i :: 0 < i <= m ==> all[i] == '\n';
    if m < 3 && rest != "" {
      assert all[m + 1] == rest[0];
    }
  }

  lemma LineFeedsNext(n: nat, rest: string)
    ensures LineFeeds(n + 1) + rest == "\n" + (LineFeeds(n) + rest)
    ensures LineFeeds(0) + rest == rest
  {
  }

  /** A run of line feeds in front of other text keeps at most three of them. */
  lemma {:induction false} CollapseRun(n: nat, rest: string)
    requires rest == "" || rest[0] != '\n'
    ensures Collapse(LineFeeds(n) + rest) == LineFeeds(if n > 3 then 3 else n) + Collapse(rest)
  {
    hide Collapse, LineFeeds, FourFeeds;
    LineFeedsNext(0, rest);
    LineFeedsNext(0, Collapse(rest));
    if n > 0 {
      CollapseRun(n - 1, rest);
      var m := if n - 1 > 3 then 3 else n - 1;
      LineFeedsNext(n - 1, rest);
      LineFeedsNext(m, Collapse(rest));
      CollapseStep('\n', LineFeeds(n - 1) + rest);
      FeedsBefore(m, Collapse(rest));
    }
  }

  /** Text that does not start with a line feed is kept character by character. */
  lemma CollapseOther(c: char, rest: string)
    requires c != '\n'
    ensures Collapse([c] + rest) == [c] + Collapse(rest)
  {
    CollapseStep(c, rest);
  }

  // ------------------------------------------------------------------------- strip

  predicate Outer(c: char) {
    c == ' ' || c == '\t' || c == '\n'
  }

  function LStrip(s: string): string {
    if s != "" && Outer(s[0]) then LStrip(s[1..]) else s
  }

  function RStrip(s: string): string {
    if s != "" && Outer(s[|s| - 1]) then RStrip(s[..|s| - 1]) else s
  }

  lemma {:induction false} LStripIsSlice(s: string) returns (i: nat)
    ensures i <= |s| && LStrip(s) == s[i..]
    ensures LStrip(s) != "" ==> !Outer(LStrip(s)[0])
  {
    i := 0;
    if s != "" && Outer(s[0]) {
      i := LStripIsSlice(s[1..]);
      i := i + 1;
    }
  }

  lemma {:induction false} RStripIsSlice(s: string) returns (j: nat)
    ensures j <= |s| && RStrip(s) == s[..j]
    ensures RStrip(s) != "" ==> !Outer(RStrip(s)[|RStrip(s)| - 1])
  {
    j := |s|;
    if s != "" && Outer(s[|s| - 1]) {
      j := RStripIsSlice(s[..|s| - 1]);
    }
  }

  /** `text.strip(" \t\n")`. */
  function Strip(s: string): string {
    RStrip(LStrip(s))
  }

  /** Stripping takes a slice without outer whitespace. */
  lemma StripIsSlice(s: string) returns (i: nat, j: nat)
    ensures i <= j <= |s| && Strip(s) == s[i..j]
    ensures var r := Strip(s); r != "" ==> !Outer(r[0]) && !Outer(r[|r| - 1])
  {
    hide LStrip, RStrip;
    i := LStripIsSlice(s);
    j := RStripIsSlice(LStrip(s));
    j := i + j;
  }

  // --------------------------------------------------------------------- the whole

  function Blanks(s: string): string {
    Filter(Respace(StripEscapes(s).0))
  }

  /** The stages behind NFC. */
  function Finish(s: string): string {
    Strip(Collapse(TrimLines(Blanks(s))))
  }

  function Normalized(nfc: string -> string, raw: string): string {
    Finish(nfc(Unix(raw)))
  }

  /** The counter of operations; the source's dictionary holds exactly the entries that are not zero. */
  datatype Counts = Counts(
    crlfToLf: nat, crToLf: nat, unicodeNfc: nat, escapesRemoved: nat, nbspToSpace: nat, separatorsToLf: nat,
    controlsRemoved: nat, formatsRemoved: nat, trailingTrimmed: nat, runsCollapsed: nat, outerTrimmed: nat)

  const NOTHING := Counts(0, 0, 0, 0, 0, 0, 0, 0, 0, 0, 0)

  function LineCounts(raw: string): Counts {
    NOTHING.(crlfToLf := CountCrlf(raw), crToLf := Count(CrlfToLf(raw), '\r'))
  }

  /** With the counts of the stages up to the filter, for the text `s` that enters the escape stage. */
  function CharCounts(before: Counts, s: string): Counts {
    var t := StripEscapes(s).0;
    var u := Replace(t, NBSP, " ");
    var v := Respace(t);
    before.(escapesRemoved := StripEscapes(s).1,
            nbspToSpace := Count(t, NBSP),
            separatorsToLf := Count(u, LINE_SEP) + Count(u, PARA_SEP),
            controlsRemoved := CountControls(v),
            formatsRemoved := CountFormats(v))
  }

  function SpaceCounts(before: Counts, s: string): Counts {
    var t := TrimLines(s);
    var u := Collapse(t);
    before.(trailingTrimmed := TrailingRuns(s), runsCollapsed := LongRuns(t), outerTrimmed := if Strip(u) != u then 1 else 0)
  }

  function CountsOf(nfc: string -> string, raw: string): Counts {
    var lines := Unix(raw);
    var composed := nfc(lines);
    var before := LineCounts(raw).(unicodeNfc := if composed != lines then 1 else 0);
    SpaceCounts(CharCounts(before, composed), Blanks(composed))
  }

  lemma FilterNext(s: string, k: nat)
    requires k < |s|
    ensures Filter(s[..k + 1]) == if Dropped(s[k]) then Filter(s[..k]) else Filter(s[..k]) + [s[k]]
    ensures CountControls(s[..k + 1]) == CountControls(s[..k]) + if DroppedControl(s[k]) then 1 else 0
    ensures CountFormats(s[..k + 1]) == CountFormats(s[..k]) + if DroppedFormat(s[k]) then 1 else 0
  {
    assert s[..k + 1][..k] == s[..k];
  }

  /** The filter loop with its two counters. */
  method FilterLoop(text: string) returns (filtered: string, controls: nat, formats: nat)
    ensures filtered == Filter(text)
    ensures controls == CountControls(text) && formats == CountFormats(text)
  {
    hide Filter, CountControls, CountFormats, Control;
    filtered, controls, formats := "", 0, 0;
    FilterEmpty();
    for k := 0 to |text|
      invariant filtered == Filter(text[..k])
      invariant controls == CountControls(text[..k]) && formats == CountFormats(text[..k])
    {
      FilterNext(text, k);
      ControlIsNoFormat(text[k]);
      if Control(text[k]) && text[k] != '\n' && text[k] != '\t' {
        controls := controls + 1;
        continue;
      }
      if DroppedFormat(text[k]) {
        formats := formats + 1;
        continue;
      }
      filtered := filtered + [text[k]];
    }
    assert text[..|text|] == text;
  }

  lemma FilterEmpty()
    ensures Filter("") == "" && CountControls("") == 0 && CountFormats("") == 0
  {
  }

  lemma ControlIsNoFormat(c: char)
    ensures !(Control(c) && DroppedFormat(c))
  {
  }

  lemma SeparatorsApart(s: string)
    ensures Replace(s, NBSP, " ") == s || Count(s, NBSP) > 0
    ensures Replace(Replace(s, LINE_SEP, "\n"), PARA_SEP, "\n") == s || Count(s, LINE_SEP) + Count(s, PARA_SEP) > 0
  {
    if NBSP !in s {
      ReplaceAbsent(s, NBSP, " ");
    }
    if LINE_SEP !in s && PARA_SEP !in s {
      ReplaceAbsent(s, LINE_SEP, "\n");
      ReplaceAbsent(s, PARA_SEP, "\n");
    }
  }

  lemma CrAbsent(raw: string)
    ensures CountCrlf(raw) == 0 ==> CrlfToLf(raw) == raw
    ensures Count(CrlfToLf(raw), '\r') == 0 ==> Unix(raw) == CrlfToLf(raw)
  {
    CrlfAbsent(raw);
    if '\r' !in CrlfToLf(raw) {
      ReplaceAbsent(CrlfToLf(raw), '\r', "\n");
    }
  }

  /** `normalize_text`: each stage rewrites the text only when it has something to count. */
  method Normalize(nfc: string -> string, raw: string) returns (text: string, counts: Counts)
    ensures text == Normalized(nfc, raw)
    ensures counts == CountsOf(nfc, raw)
  {
    hide CountCrlf, CrlfToLf, Count, StripEscapes, Replace, Filter, TrimLines, Collapse, Strip, TrailingRuns, LongRuns, CountControls, CountFormats;
    counts, text := NOTHING, raw;
    CrAbsent(raw);
    var crlf := CountCrlf(text);
    if crlf != 0 {
      counts := counts.(crlfToLf := counts.crlfToLf + crlf);
      text := CrlfToLf(text);
    }
    var cr := Count(text, '\r');
    if cr != 0 {
      counts := counts.(crToLf := counts.crToLf + cr);
      text := Replace(text, '\r', "\n");
    }
    assert text == Unix(raw) && counts == LineCounts(raw);
    var normalized := nfc(text);
    if normalized != text {
      counts := counts.(unicodeNfc := counts.unicodeNfc + 1);
      text := normalized;
    }
    text, counts := NormalizeChars(text, counts);
    text, counts := NormalizeSpaces(text, counts);
  }

  /** The stages from the escape sequences to the filter. */
  method NormalizeChars(before: string, counts0: Counts) returns (text: string, counts: Counts)
    requires counts0.escapesRemoved == counts0.nbspToSpace == counts0.separatorsToLf == 0
    requires counts0.controlsRemoved == counts0.formatsRemoved == 0
    ensures text == Blanks(before) && counts == CharCounts(counts0, before)
  {
    hide Count, StripEscapes, Replace, Filter, CountControls, CountFormats;
    counts := counts0;
    var stripped := StripEscapes(before);
    text := stripped.0;
    if stripped.1 != 0 {
      counts := counts.(escapesRemoved := counts.escapesRemoved + stripped.1);
    }
    SeparatorsApart(text);
    var nbsp := Count(text, NBSP);
    if nbsp != 0 {
      counts := counts.(nbspToSpace := counts.nbspToSpace + nbsp);
      text := Replace(text, NBSP, " ");
    }
    SeparatorsApart(text);
    var separators := Count(text, LINE_SEP) + Count(text, PARA_SEP);
    if separators != 0 {
      counts := counts.(separatorsToLf := counts.separatorsToLf + separators);
      text := Replace(Replace(text, LINE_SEP, "\n"), PARA_SEP, "\n");
    }
    var filtered, controls, formats := FilterLoop(text);
    if controls != 0 {
      counts := counts.(controlsRemoved := counts.controlsRemoved + controls);
    }
    if formats != 0 {
      counts := counts.(formatsRemoved := counts.formatsRemoved + formats);
    }
    text := filtered;
  }

  /** The stages behind the filter. */
  method NormalizeSpaces(before: string, counts0: Counts) returns (text: string, counts: Counts)
    requires counts0.trailingTrimmed == counts0.runsCollapsed == counts0.outerTrimmed == 0
    ensures text == Strip(Collapse(TrimLines(before))) && counts == SpaceCounts(counts0, before)
  {
    hide TrimLines, Collapse, Strip, TrailingRuns, LongRuns;
    counts := counts0;
    var trailing := TrailingRuns(before);
    text := TrimLines(before);
    if trailing != 0 {
      counts := counts.(trailingTrimmed := counts.trailingTrimmed + trailing);
    }
    var runs := LongRuns(text);
    text := Collapse(text);
    if runs != 0 {
      counts := counts.(runsCollapsed := counts.runsCollapsed + runs);
    }
    var stripped := Strip(text);
    if stripped != text {
      counts := counts.(outerTrimmed := counts.outerTrimmed + 1);
      text := stripped;
    }
  }

  // -------------------------------------------------------------------- clean text

  ghost predicate Plain(s: string) {
    forall c :: c in s ==> !Dropped(c) && c != NBSP && c != LINE_SEP && c != PARA_SEP
  }

  /** No CR, ESC or other control but LF and TAB, no special space, no trailing blank, no long run, no outer whitespace. */
  ghost predicate Clean(s: string) {
    Plain(s) && NoTrailing(s) && NoLongRun(s) && (s != "" ==> !Outer(s[0]) && !Outer(s[|s| - 1]))
  }

  /** Clean text, code point by code point. */
  lemma CleanMeans(s: string)
    ensures Clean(s) <==>
              && (forall i :: 0 <= i < |s| ==> Permitted(s[i] as int))
              && (forall i :: 0 <= i < |s| && (s[i] == ' ' || s[i] == '\t') ==> i + 1 < |s| && s[i + 1] != '\n')
              && (forall i :: 0 <= i < |s| - 3 && s[i] == s[i + 1] == s[i + 2] == s[i + 3] ==> s[i] != '\n')
              && (s != "" ==> s[0] !in " \t\n" && s[|s| - 1] !in " \t\n")
  {
    PlainMeans(s);
    hide Plain, Permitted;
    if Clean(s) {
      forall i | 0 <= i < |s| - 3 && s[i] == s[i + 1] == s[i + 2] == s[i + 3]
        ensures s[i] != '\n'
      {
        assert !FourFeeds(s, i);
      }
    }
  }

  /** No control but TAB and LF, no special space, separator or zero-width character. */
  ghost predicate Permitted(n: int) {
    && (n == 9 || n == 10 || 32 <= n <= 126 || n >= 161)
    && n != 0x2028 && n != 0x2029 && n != 0x200B && n != 0xFEFF
  }

  lemma PlainMeans(s: string)
    ensures Plain(s) <==> forall i :: 0 <= i < |s| ==> Permitted(s[i] as int)
  {
    forall c: char
      ensures Permitted(c as int) <==> !Dropped(c) && c != NBSP && c != LINE_SEP && c != PARA_SEP
    {
      PermittedChar(c);
    }
    hide Dropped, Permitted;
    assert forall i :: 0 <= i < |s| ==> s[i] in s;
  }

  lemma PermittedChar(c: char)
    ensures Permitted(c as int) <==> !Dropped(c) && c != NBSP && c != LINE_SEP && c != PARA_SEP
  {
    assert NBSP as int == 160 && LINE_SEP as int == 0x2028 && PARA_SEP as int == 0x2029;
  }

  /** The composition and the outer trim count once, exactly when they change the text. */
  lemma CountsOnce(nfc: string -> string, raw: string)
    ensures var counts, composed := CountsOf(nfc, raw), nfc(Unix(raw));
            && counts.unicodeNfc == (if composed == Unix(raw) then 0 else 1)
            && counts.outerTrimmed == (if Strip(Collapse(TrimLines(Blanks(composed)))) == Collapse(TrimLines(Blanks(composed))) then 0 else 1)
  {
    hide Strip, Collapse, TrimLines, Blanks, Unix;
  }

  lemma BlanksPlain(s: string)
    ensures Plain(Blanks(s))
  {
    hide Replace, Filter, StripEscapes, Dropped;
    var t := StripEscapes(s).0;
    FilterMembers(Respace(t));
    var u := Replace(t, NBSP, " ");
    var v := Replace(u, LINE_SEP, "\n");
    ReplaceKeepsFree(u, LINE_SEP, "\n", NBSP);
    ReplaceKeepsFree(v, PARA_SEP, "\n", NBSP);
    ReplaceKeepsFree(v, PARA_SEP, "\n", LINE_SEP);
  }

  lemma SliceKeeps(s: string, i: nat, j: nat)
    requires i <= j <= |s| && Plain(s) && NoTrailing(s) && NoLongRun(s)
    requires i < j ==> !Outer(s[j - 1])
    ensures Plain(s[i..j]) && NoTrailing(s[i..j]) && NoLongRun(s[i..j])
  {
    hide Dropped;
    var r := s[i..j];
    forall c | c in r
      ensures c in s
    {
    }
    forall k | 0 <= k < |r| && Blank(r[k])
      ensures k + 1 < |r| && r[k + 1] != '\n'
    {
      assert r[k] == s[i + k];
      assert i + k != j - 1;
    }
    forall k: nat
      ensures !FourFeeds(r, k)
    {
      assert !FourFeeds(s, i + k);
    }
  }

  /** Every output is clean, whatever NFC does. */
  lemma OutputIsClean(nfc: string -> string, raw: string)
    ensures Clean(Normalized(nfc, raw))
  {
    hide Blanks, TrimLines, Collapse, Strip, NoTrailing, NoLongRun, Dropped;
    var t := Blanks(nfc(Unix(raw)));
    BlanksPlain(nfc(Unix(raw)));
    var u := Collapse(TrimLines(t));
    TrimClean(t);
    CollapseClean(TrimLines(t));
    CollapseMembers(TrimLines(t));
    assert Plain(u);
    var r := Strip(u);
    var i, j := StripIsSlice(u);
    if i < j {
      assert r[|r| - 1] == u[j - 1];
    }
    SliceKeeps(u, i, j);
  }

  lemma PlainFixed(s: string)
    requires Plain(s)
    ensures Blanks(s) == s && '\r' !in s && ESC !in s
    ensures StripEscapes(s) == (s, 0) && Respace(s) == s && CountControls(s) == 0 && CountFormats(s) == 0
  {
    hide Replace, Filter, StripEscapes;
    assert Dropped(ESC) && Dropped('\r');
    ReplaceAbsent(s, NBSP, " ");
    ReplaceAbsent(s, LINE_SEP, "\n");
    ReplaceAbsent(s, PARA_SEP, "\n");
    FilterCounts(s);
  }

  /** Clean text passes the stages behind NFC unchanged. */
  lemma CleanIsFixed(s: string)
    requires Clean(s)
    ensures Finish(s) == s && Unix(s) == s
  {
    assert Strip(s) == s;
    hide Blanks, TrimLines, Collapse, NoTrailing, NoLongRun, Plain, Unix;
    PlainFixed(s);
    TrimFixed(s);
    CollapseFixed(s);
    UnixFixed(s);
  }
}
