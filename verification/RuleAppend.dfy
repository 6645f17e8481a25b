/**
 * `_append_rule` of examples/mail_assistant/rules.py: a new rule is put after
 * the existing text, which is kept byte for byte.
 */
module RuleAppend {
  import opened Common
  import opened Text
  import opened RuleText
  import opened RuleFile
  import opened RuleUpdate

  /** The order in which the fields of a rule are written. */
  const FIELDS: seq<string> := ["sender", "domain", "subject", "priority", "action", "note"]

  function FieldLine(key: string, value: string): string {
    key + " = " + Quoted(value) + "\n"
  }

  function FieldLines(fields: seq<string>, rule: map<string, string>): seq<string> {
    if fields == [] then []
    else (if fields[0] in rule then [FieldLine(fields[0], rule[fields[0]])] else []) + FieldLines(fields[1..], rule)
  }

  function RuleLines(rule: map<string, string>): seq<string> {
    [MARKER + "\n"] + FieldLines(FIELDS, rule)
  }

  predicate EndsWith(s: string, end: string) {
    |end| <= |s| && s[|s| - |end|..] == end
  }

  function Separator(current: string): string {
    if current != "" && !EndsWith(current, "\n") then "\n\n"
    else if current == "" || EndsWith(current, "\n\n") then ""
    else "\n"
  }

  /** The shortest line feeds after which the new rule stands behind an empty line, or nothing in an empty file. */
  lemma SeparatorMeans(current: string)
    ensures Separator(current) == LineFeeds(|Separator(current)|)
    ensures current == "" ==> Separator(current) == ""
    ensures current != "" ==> EndsWith(current + Separator(current), "\n\n")
    ensures forall n: nat :: n < |Separator(current)| ==> !EndsWith(current + LineFeeds(n), "\n\n")
  {
    assert LineFeeds(0) == "" && LineFeeds(1) == "\n" && LineFeeds(2) == "\n\n";
    assert current + "" == current;
    if current != "" && !EndsWith(current, "\n") {
      assert current[|current| - 1] != '\n' by {
        assert current[|current| - 1..] == [current[|current| - 1]];
      }
      assert (current + "\n")[|current| - 1..][0] == current[|current| - 1];
      assert EndsWith(current + "\n\n", "\n\n");
      if |current| >= 2 {
        assert current[|current| - 2..][1] == current[|current| - 1];
      }
    } else if current != "" && !EndsWith(current, "\n\n") {
      assert current[|current| - 1..] == "\n";
      assert (current + "\n")[|current| - 1..] == current[|current| - 1..] + "\n";
    }
  }

  function LineFeeds(n: nat): string {
    if n == 0 then "" else "\n" + LineFeeds(n - 1)
  }

  function AppendRule(current: string, rule: map<string, string>): string {
    current + Separator(current) + Concat(RuleLines(rule))
  }

  // ----------------------------------------------------------- the new block

  lemma FieldLineFacts(key: string, value: string)
    requires IsKey(key)
    ensures var line := FieldLine(key, value);
            && IsLine(line) && Terminated(line) && !IsMarker(line)
            && Assigns(line, key) && ValueIn(line, key) == Some(value)
  {
    hide Assignment, Quoted, ReadBasic;
    QuotedHasNoNewline(value);
    var content := key + " = " + Quoted(value);
    ContentOf(content, true);
    AssignmentOf("", key, " ", " ", Quoted(value));
    assert "" + key + " " + "=" + " " + Quoted(value) == content;
    AssignmentIsNoMarker(FieldLine(key, value), key);
    ReadBack(value, "");
    assert Quoted(value) + "" == Quoted(value);
  }

  lemma FieldsAreKeys()
    ensures forall i :: 0 <= i < |FIELDS| ==> IsKey(FIELDS[i])
  {
  }

  lemma {:induction false} FieldLinesFacts(fields: seq<string>, rule: map<string, string>)
    requires forall i :: 0 <= i < |fields| ==> IsKey(fields[i])
    ensures var lines := FieldLines(fields, rule);
            && NoMarkers(lines)
            && (forall i :: 0 <= i < |lines| ==> IsLine(lines[i]) && Terminated(lines[i]))
            && (forall key :: key in fields && key in rule ==> FieldLine(key, rule[key]) in lines)
  {
    hide IsMarker, Assigns, ValueIn, FieldLine, Terminated, IsLine, IsKey;
    if fields != [] {
      FieldLinesFacts(fields[1..], rule);
      assert fields == [fields[0]] + fields[1..];
      if fields[0] in rule {
        FieldLineFacts(fields[0], rule[fields[0]]);
      }
    }
  }

  lemma RuleLinesAreBlock(rule: map<string, string>)
    ensures Whole(RuleLines(rule)) && Terminated(Last(RuleLines(rule)))
    ensures forall key :: key in FIELDS && key in rule ==> FieldLine(key, rule[key]) in RuleLines(rule)
  {
    hide IsMarker, FieldLine, Terminated, IsLine, FieldLines;
    MarkerLine();
    FieldsAreKeys();
    FieldLinesFacts(FIELDS, rule);
    assert RuleLines(rule)[1..] == FieldLines(FIELDS, rule);
  }

  // ------------------------------------------------------------ the whole file

  function CountMarkers(lines: seq<string>): nat {
    if lines == [] then 0 else (if IsMarker(lines[0]) then 1 else 0) + CountMarkers(lines[1..])
  }

  lemma {:induction false} SegmentsCount(lines: seq<string>)
    ensures |Segments(lines)| == 1 + CountMarkers(lines)
  {
    hide IsMarker;
    if lines != [] {
      SegmentsCount(lines[1..]);
    }
  }

  lemma {:induction false} CountAppend(a: seq<string>, b: seq<string>)
    ensures CountMarkers(a + b) == CountMarkers(a) + CountMarkers(b)
  {
    hide IsMarker;
    if a == [] {
      assert a + b == b;
    } else {
      assert (a + b)[1..] == a[1..] + b;
      CountAppend(a[1..], b);
    }
  }

  lemma {:induction false} CountNone(lines: seq<string>)
    requires NoMarkers(lines)
    ensures CountMarkers(lines) == 0
  {
    hide IsMarker;
    if lines != [] {
      CountNone(lines[1..]);
    }
  }

  lemma {:induction false} ConcatEnd(lines: seq<string>)
    requires WellFormed(lines) && lines != []
    ensures Concat(lines) != "" && EndsWith(Concat(lines), [Last(lines)[|Last(lines)| - 1]])
  {
    hide Terminated;
    if |lines| == 1 {
      assert Concat(lines) == lines[0] + Concat(lines[1..]) == lines[0];
    } else {
      ConcatEnd(lines[1..]);
    }
  }

  /** The existing lines once the text ends a line. */
  function Ended(lines: seq<string>): seq<string> {
    if lines == [] || Terminated(Last(lines)) then lines else lines[..|lines| - 1] + [Last(lines) + "\n"]
  }

  /** Lines of the new file: the old ones, at most one blank line, the new block. */
  lemma AppendLines(current: string, rule: map<string, string>)
    ensures Lines(AppendRule(current, rule)) == Ended(Lines(current)) + RuleLines(rule)
         || Lines(AppendRule(current, rule)) == Ended(Lines(current)) + ["\n"] + RuleLines(rule)
  {
    hide IsMarker, RuleLines, Concat, Lines;
    var lines, block := Lines(current), RuleLines(rule);
    RuleLinesAreBlock(rule);
    ConcatLines(current);
    EndedFacts(current);
    var sep := Separator(current);
    if sep == "" {
      LinesAppend(Ended(lines), block);
      assert AppendRule(current, rule) == current + Concat(block);
    } else {
      AppendBlank(Ended(lines), block);
      var ended := Concat(Ended(lines));
      if sep == "\n" {
        assert AppendRule(current, rule) == ended + "\n" + Concat(block);
      } else {
        assert sep == "\n" + "\n";
        assert AppendRule(current, rule) == ended + "\n" + Concat(block);
      }
    }
  }

  lemma AppendBlank(lines: seq<string>, block: seq<string>)
    requires WellFormed(lines) && WellFormed(block) && (lines != [] ==> Terminated(Last(lines)))
    ensures Lines(Concat(lines) + "\n" + Concat(block)) == lines + ["\n"] + block
  {
    hide Lines;
    var blank := ["\n"];
    assert IsLine("\n") && Terminated("\n");
    assert Concat(blank) == "\n";
    LinesAppend(lines, blank);
    ConcatAppend(lines, blank);
    LinesAppend(lines + blank, block);
  }

  /** Ending the last line adds "\n" exactly when the text does not end with one. */
  lemma EndedFacts(current: string)
    ensures var lines := Ended(Lines(current));
            && WellFormed(lines) && (lines != [] ==> Terminated(Last(lines)))
            && Concat(lines) == current + (if current == "" || EndsWith(current, "\n") then "" else "\n")
  {
    var lines := Lines(current);
    ConcatLines(current);
    if lines != [] {
      hide Lines, Concat;
      ConcatEnd(lines);
      var last := Last(lines);
      assert current[|current| - 1..] == [last[|last| - 1]];
      if Terminated(last) {
        assert EndsWith(current, "\n");
      } else {
        assert current[|current| - 1..][0] == last[|last| - 1] != '\n';
        assert !EndsWith(current, "\n");
        EndLast(lines);
      }
    }
  }

  lemma EndLast(lines: seq<string>)
    requires WellFormed(lines) && lines != [] && !Terminated(Last(lines))
    ensures WellFormed(Ended(lines)) && Concat(Ended(lines)) == Concat(lines) + "\n"
  {
    var front, last := lines[..|lines| - 1], Last(lines);
    assert lines == front + [last];
    ConcatAppend(front, [last]);
    ConcatAppend(front, [last + "\n"]);
    assert Concat([last]) == last && Concat([last + "\n"]) == last + "\n";
    LineContent(last);
    ContentOf(last, true);
  }

  /** The old text ends in a bare carriage return that hides a header. */
  predicate HiddenHeader(text: string) {
    var lines := Lines(text);
    lines != [] && BareCr(Last(lines)) && IsMarker(Last(lines) + "\n")
  }

  lemma BareCrIsNoMarker(line: string)
    requires BareCr(line)
    ensures !IsMarker(line)
  {
    hide Blanks;
    InnerCr(line);
  }

  lemma EndedCount(text: string)
    ensures CountMarkers(Ended(Lines(text))) == CountMarkers(Lines(text)) + (if HiddenHeader(text) then 1 else 0)
  {
    hide IsMarker, Lines;
    var lines := Lines(text);
    if lines != [] && !Terminated(Last(lines)) {
      var front, last := lines[..|lines| - 1], Last(lines);
      assert lines == front + [last];
      CountAppend(front, [last]);
      CountAppend(front, [last + "\n"]);
      if EndsWithCr(last) {
        BareCrIsNoMarker(last);
      } else {
        EndLineMarker(last, "\n");
      }
    }
  }

  /**
   * Appending keeps the existing text and adds exactly one rule, unless the
   * text ended in a bare carriage return behind a header that now counts too.
   */
  lemma AppendAddsOneRule(current: string, rule: map<string, string>)
    ensures current <= AppendRule(current, rule)
    ensures |Rules(AppendRule(current, rule))| == |Rules(current)| + (if HiddenHeader(current) then 2 else 1)
  {
    hide IsMarker, RuleLines, Lines, Concat, Separator, HiddenHeader;
    var block := RuleLines(rule);
    AppendLines(current, rule);
    EndedCount(current);
    RuleLinesAreBlock(rule);
    var ended := Ended(Lines(current));
    CountAppend(ended, block);
    CountAppend(ended + ["\n"], block);
    CountAppend(ended, ["\n"]);
    BlankIsNoMarker();
    CountNone(["\n"]);
    CountAppend([block[0]], block[1..]);
    assert [block[0]] + block[1..] == block;
    CountNone(block[1..]);
    SegmentsCount(Lines(current));
    SegmentsCount(Lines(AppendRule(current, rule)));
  }

  lemma BlankIsNoMarker()
    ensures NoMarkers(["\n"])
  {
    assert Content("\n") == "";
  }

  /** The last rule of the new file is the new one, and every field of it reads back. */
  lemma AppendedReads(current: string, rule: map<string, string>, key: string)
    requires key in FIELDS && key in rule
    ensures var rules := Rules(AppendRule(current, rule));
            exists line :: line in rules[|rules| - 1] && Assigns(line, key) && ValueIn(line, key) == Some(rule[key])
  {
    hide IsMarker, RuleLines, Lines, Concat, Separator, Assigns, ValueIn, FieldLine;
    var block := RuleLines(rule);
    AppendLines(current, rule);
    RuleLinesAreBlock(rule);
    FieldsAreKeys();
    FieldLineFacts(key, rule[key]);
    var lines := Lines(AppendRule(current, rule));
    var ended := Ended(Lines(current));
    var before := if lines == ended + block then ended else ended + ["\n"];
    LastSegment(before, block);
    assert FieldLine(key, rule[key]) in block;
  }

  /** A block at the end of the lines is the last segment. */
  lemma {:induction false} LastSegment(before: seq<string>, block: seq<string>)
    requires IsBlock(block)
    ensures var segs := Segments(before + block); segs[|segs| - 1] == block
  {
    hide IsMarker;
    if before == [] {
      assert before + block == block;
      PreambleFirst(block[1..], []);
      assert block[1..] + [] == block[1..];
      assert Segments(block[1..]) == [block[1..]];
      assert [block[0]] + block[1..] == block;
    } else {
      assert (before + block)[1..] == before[1..] + block;
      LastSegment(before[1..], block);
      SegmentsAtLeastTwo(before[1..], block);
    }
  }

  lemma SegmentsAtLeastTwo(before: seq<string>, block: seq<string>)
    requires IsBlock(block)
    ensures |Segments(before + block)| >= 2
  {
    hide IsMarker;
    SegmentsCount(before + block);
    CountAppend(before, block);
  }
}
