/**
 * Updating and appending whole rules in a personal-rule file
 * (examples/mail_assistant/rules.py, `_update_rule` and `_append_rule`).
 *
 * A file is read as the lines before the first `[[rule]]` header followed by
 * one block of lines for each header.
 */
module RuleFile {
  import opened Common
  import opened Text
  import opened RuleText

  // -------------------------------------------------------------------- blocks

  const MARKER := "[[rule]]"
  const PRIORITY := "priority"
  const ACTION := "action"

  /** A line that the header pattern matches: no carriage return except right before the "\n". */
  predicate IsMarker(line: string) {
    && line != ""
    && var content := Content(line);
       var body := if Terminated(line) && EndsWithCr(content) then content[..|content| - 1] else content;
       var k := Blanks(body).1;
       MARKER <= k && '\r' !in k[|MARKER|..]
  }

  predicate NoMarkers(lines: seq<string>) {
    forall i :: 0 <= i < |lines| ==> !IsMarker(lines[i])
  }

  predicate IsBlock(lines: seq<string>) {
    lines != [] && IsMarker(lines[0]) && NoMarkers(lines[1..])
  }

  /** A preamble without headers, then blocks. */
  predicate GoodSegments(segs: seq<seq<string>>) {
    && |segs| > 0 && NoMarkers(segs[0])
    && forall k :: 1 <= k < |segs| ==> IsBlock(segs[k])
  }

  function Segments(lines: seq<string>): (segs: seq<seq<string>>)
    ensures |segs| > 0
  {
    if lines == [] then [[]]
    else
      var rest := Segments(lines[1..]);
      if IsMarker(lines[0]) then [[], [lines[0]] + rest[0]] + rest[1..]
      else [[lines[0]] + rest[0]] + rest[1..]
  }

  function Flatten(segs: seq<seq<string>>): seq<string> {
    if segs == [] then [] else segs[0] + Flatten(segs[1..])
  }

  lemma {:induction false} SegmentsAreGood(lines: seq<string>)
    ensures GoodSegments(Segments(lines))
  {
    hide IsMarker;
    if lines != [] {
      var rest := Segments(lines[1..]);
      SegmentsAreGood(lines[1..]);
      if IsMarker(lines[0]) {
        assert ([lines[0]] + rest[0])[1..] == rest[0];
      }
    }
  }

  lemma {:induction false} FlattenSegments(lines: seq<string>)
    ensures Flatten(Segments(lines)) == lines
  {
    hide IsMarker;
    if lines != [] {
      var rest := Segments(lines[1..]);
      FlattenSegments(lines[1..]);
      assert [[lines[0]] + rest[0]] + rest[1..] == [[lines[0]] + rest[0]] + rest[1..];
      var first := [[lines[0]] + rest[0]] + rest[1..];
      assert first[1..] == rest[1..];
      assert Flatten(first) == [lines[0]] + (rest[0] + Flatten(rest[1..]));
      assert ([[]] + first)[1..] == first;
      assert Flatten([[]] + first) == [] + Flatten(first);
      assert [[], [lines[0]] + rest[0]] + rest[1..] == [[]] + first;
    }
  }

  lemma {:induction false} PreambleFirst(pre: seq<string>, lines: seq<string>)
    requires NoMarkers(pre)
    ensures Segments(pre + lines) == [pre + Segments(lines)[0]] + Segments(lines)[1..]
  {
    hide IsMarker;
    var rest := Segments(lines);
    if pre == [] {
      assert pre + lines == lines;
      assert pre + rest[0] == rest[0];
      assert [rest[0]] + rest[1..] == rest;
    } else {
      assert (pre + lines)[1..] == pre[1..] + lines;
      PreambleFirst(pre[1..], lines);
      assert [pre[0]] + (pre[1..] + rest[0]) == pre + rest[0];
      assert ([pre[1..] + rest[0]] + rest[1..])[1..] == rest[1..];
    }
  }

  /** Well-formed segments are what reading their lines finds. */
  lemma {:induction false} SegmentsOf(segs: seq<seq<string>>)
    requires GoodSegments(segs)
    ensures Segments(Flatten(segs)) == segs
    decreases |segs|
  {
    hide IsMarker;
    if |segs| == 1 {
      assert Flatten(segs) == segs[0] + [];
      PreambleFirst(segs[0], []);
      assert segs[0] + [] == segs[0];
    } else {
      var block := segs[1];
      var tail := [block[1..]] + segs[2..];
      assert tail[1..] == segs[2..];
      assert segs[1..][1..] == segs[2..];
      SegmentsOf(tail);
      assert Flatten(tail) == block[1..] + Flatten(segs[2..]);
      var lines := block + Flatten(segs[2..]);
      assert lines == [block[0]] + Flatten(tail);
      assert lines[0] == block[0] && lines[1..] == Flatten(tail);
      assert [block[0]] + block[1..] == block;
      assert Segments(lines) == [[], block] + segs[2..];
      assert Flatten(segs[1..]) == lines;
      assert Flatten(segs) == segs[0] + lines;
      PreambleFirst(segs[0], lines);
      assert segs[0] + [] == segs[0];
      assert ([[], block] + segs[2..])[1..] == segs[1..];
    }
  }

  lemma {:induction false} FlattenAppend(a: seq<seq<string>>, b: seq<seq<string>>)
    ensures Flatten(a + b) == Flatten(a) + Flatten(b)
  {
    if a == [] {
      assert a + b == b;
    } else {
      assert (a + b)[1..] == a[1..] + b;
      FlattenAppend(a[1..], b);
    }
  }

  // ------------------------------------------------------------------- updates

  datatype UpdateError = NoSuchRule | NoPriority

  predicate HasCrLf(lines: seq<string>) {
    exists i :: 0 <= i < |lines| && Terminated(lines[i]) && EndsWithCr(Content(lines[i]))
  }

  ghost predicate CrLfAt(text: string, i: nat) {
    i + 1 < |text| && text[i] == '\r' && text[i + 1] == '\n'
  }

  ghost predicate HasCrLfAt(lines: seq<string>, k: nat) {
    k < |lines| && Terminated(lines[k]) && EndsWithCr(Content(lines[k]))
  }

  /** `"\r\n" in block`, said line by line. */
  lemma {:induction false} CrLfIsInText(lines: seq<string>)
    requires WellFormed(lines)
    ensures HasCrLf(lines) <==> exists i: nat :: CrLfAt(Concat(lines), i)
  {
    if lines != [] {
      var line, rest := lines[0], lines[1..];
      assert lines == [line] + rest;
      CrLfIsInText(rest);
      CrLfFirst(line, rest);
      HasCrLfCons(line, rest);
      CrLfCons(line, Concat(rest));
      assert Concat(lines) == line + Concat(rest);
    }
  }

  lemma HasCrLfCons(line: string, rest: seq<string>)
    ensures HasCrLf([line] + rest) <==> HasCrLfAt([line], 0) || HasCrLf(rest)
  {
    var lines := [line] + rest;
    if HasCrLf(rest) {
      var k :| 0 <= k < |rest| && Terminated(rest[k]) && EndsWithCr(Content(rest[k]));
      assert lines[k + 1] == rest[k];
      assert Terminated(lines[k + 1]) && EndsWithCr(Content(lines[k + 1]));
    }
    if HasCrLfAt([line], 0) {
      assert Terminated(lines[0]) && EndsWithCr(Content(lines[0]));
    }
  }

  lemma CrLfCons(line: string, tail: string)
    ensures (exists i: nat :: CrLfAt(line + tail, i)) <==>
              (exists i: nat :: i < |line| && CrLfAt(line + tail, i)) || (exists i: nat :: CrLfAt(tail, i))
  {
    if i: nat :| CrLfAt(tail, i) {
      assert CrLfAt(line + tail, |line| + i);
    }
    if i: nat :| CrLfAt(line + tail, i) {
      if i >= |line| {
        assert CrLfAt(tail, i - |line|);
      }
    }
  }

  lemma OnlyLast(line: string)
    requires IsLine(line)
    ensures forall k :: 0 <= k < |line| - 1 ==> line[k] != '\n'
  {
    forall k | 0 <= k < |line| - 1
      ensures line[k] != '\n'
    {
      assert line[..|line| - 1][k] == line[k];
    }
  }

  lemma CrLfFirst(line: string, rest: seq<string>)
    requires WellFormed([line] + rest)
    ensures HasCrLfAt([line], 0) <==> exists i: nat :: i < |line| && CrLfAt(line + Concat(rest), i)
  {
    var lines := [line] + rest;
    assert lines[0] == line && IsLine(line);
    assert rest != [] ==> Terminated(line);
    OnlyLast(line);
    if HasCrLfAt([line], 0) {
      assert CrLfAt(line + Concat(rest), |line| - 2);
    }
  }

  function ActionLine(action: string, newline: string): string {
    ACTION + " = " + Quoted(action) + newline
  }

  /** A missing action is added at the end of the block, on a new line if the block does not end with one. */
  function AppendAction(block: seq<string>, action: string): seq<string>
    requires block != []
  {
    var newline := if HasCrLf(block) then "\r\n" else "\n";
    var line := ActionLine(action, newline);
    var last := block[|block| - 1];
    var front := block[..|block| - 1];
    if Terminated(last) then block + [line]
    else if EndsWithCr(last) then front + [last + line]
    else front + [last + newline, line]
  }

  /** The added line ends as the lines of the block do: in CR LF if the block has any, else in LF. */
  lemma AddedNewline(block: seq<string>, action: string)
    requires block != [] && WellFormed(block)
    ensures var b := AppendAction(block, action);
            && b != [] && Terminated(b[|b| - 1])
            && (EndsWithCr(Content(b[|b| - 1])) <==> exists i: nat :: CrLfAt(Concat(block), i))
  {
    CrLfIsInText(block);
    hide *;
    AddedLast(block, action);
    ActionLineEnds(action, HasCrLf(block), "");
    ActionLineEnds(action, HasCrLf(block), block[|block| - 1]);
    assert "" + ActionLine(action, if HasCrLf(block) then "\r\n" else "\n") == ActionLine(action, if HasCrLf(block) then "\r\n" else "\n");
  }

  lemma AddedLast(block: seq<string>, action: string)
    requires block != []
    ensures var b, line := AppendAction(block, action), ActionLine(action, if HasCrLf(block) then "\r\n" else "\n");
            b != [] && (b[|b| - 1] == line || b[|b| - 1] == block[|block| - 1] + line)
  {
    hide HasCrLf, ActionLine, Terminated, EndsWithCr;
  }

  lemma ActionLineEnds(action: string, crlf: bool, before: string)
    ensures var line := before + ActionLine(action, if crlf then "\r\n" else "\n");
            line != "" && Terminated(line) && (EndsWithCr(Content(line)) <==> crlf)
  {
    QuotedEnds(action);
    hide Quoted;
    var newline := if crlf then "\r\n" else "\n";
    var front := before + (ACTION + " = " + Quoted(action));
    var line := front + newline;
    assert before + ActionLine(action, newline) == line;
    assert front[|front| - 1] == '"';
    assert Content(line) == front + if crlf then "\r" else "";
  }

  lemma QuotedEnds(value: string)
    ensures Quoted(value) != "" && Quoted(value)[|Quoted(value)| - 1] == '"'
  {
  }

  function UpdateBlock(block: seq<string>, priority: string, action: string): Option<seq<string>>
    requires block != []
  {
    var (b1, priorityFound) := ReplaceAssignment(block, PRIORITY, priority);
    if !priorityFound then None
    else
      var (b2, actionFound) := ReplaceAssignment(b1, ACTION, action);
      Some(if actionFound then b2 else AppendAction(b1, action))
  }

  /** `_update_rule`. */
  function UpdateRule(text: string, index: int, priority: string, action: string): Result<string, UpdateError> {
    var segs := Segments(Lines(text));
    SegmentsAreGood(Lines(text));
    if !(1 <= index < |segs|) then Err(NoSuchRule)
    else
      match UpdateBlock(segs[index], priority, action)
      case None => Err(NoPriority)
      case Some(block) =>
        Ok(Concat(Flatten(segs[..index])) + Concat(block) + Concat(Flatten(segs[index + 1..])))
  }

  // ----------------------------------------------------------- rewritten lines

  lemma Keys()
    ensures IsKey(PRIORITY) && IsKey(ACTION)
  {
  }

  lemma CommentShape(bare: string)
    ensures CommentSuffix(bare) == "" || CommentSuffix(bare)[0] == '#'
    ensures LStrip(CommentSuffix(bare)) == CommentSuffix(bare)
    ensures !EndsWithCr(bare) ==> !EndsWithCr(CommentSuffix(bare))
    ensures '\n' !in bare ==> '\n' !in CommentSuffix(bare)
  {
    ScanIsSuffix(bare, None, false);
  }

  /** The shape of a new value part. */
  lemma NewValueShape(rest: string, value: string) returns (body: string)
    ensures body == Quoted(value) + (if CommentOf(rest) == "" then "" else " " + CommentOf(rest))
    ensures NewValue(rest, value) == body + (if EndsWithCr(rest) then "\r" else "")
    ensures Bare(NewValue(rest, value)) == body && CommentSuffix(body) == CommentOf(rest)
    ensures EndsWithCr(NewValue(rest, value)) <==> EndsWithCr(rest)
  {
    CommentShape(Bare(rest));
    QuotedHasNoNewline(value);
    CommentRecovered(value, CommentOf(rest));
    hide Quoted, CommentSuffix, LStrip;
    var comment := CommentOf(rest);
    body := Quoted(value) + (if comment == "" then "" else " " + comment);
    if !EndsWithCr(rest) {
      assert !EndsWithCr(body);
    }
  }

  /** A new value part reads back as the value and keeps the comment; rewriting it again changes nothing. */
  lemma NewValueFacts(rest: string, value: string)
    ensures CommentOf(NewValue(rest, value)) == CommentOf(rest)
    ensures ReadBasic(NewValue(rest, value)).Some? && ReadBasic(NewValue(rest, value)).value.0 == value
    ensures NewValue(NewValue(rest, value), value) == NewValue(rest, value)
    ensures NoLeadingBlank(NewValue(rest, value))
  {
    hide Quoted, CommentSuffix, LStrip, ReadBasic;
    QuotedHasNoNewline(value);
    var body := NewValueShape(rest, value);
    var again := NewValueShape(NewValue(rest, value), value);
    var tail := NewValue(rest, value)[|Quoted(value)|..];
    assert NewValue(rest, value) == Quoted(value) + tail;
    ReadBack(value, tail);
  }

  lemma NewValueHasNoNewline(rest: string, value: string)
    requires '\n' !in rest
    ensures '\n' !in NewValue(rest, value)
  {
    hide Quoted, CommentSuffix, LStrip;
    QuotedHasNoNewline(value);
    CommentShape(Bare(rest));
  }

  /** A line whose value for the key is settled: rewriting it changes nothing. */
  predicate Settled(line: string, key: string, value: string) {
    Assigns(line, key) && NewLine(line, key, value) == line
  }

  lemma ContentOf(content: string, terminated: bool)
    requires '\n' !in content && (content != "" || terminated)
    ensures var line := content + (if terminated then "\n" else "");
            IsLine(line) && Content(line) == content && (Terminated(line) <==> terminated)
  {
    var line := content + (if terminated then "\n" else "");
    if terminated {
      assert line[..|line| - 1] == content;
    } else {
      assert content[|content| - 1] in content;
      assert forall c :: c in content[..|content| - 1] ==> c in content;
    }
  }

  lemma LineContent(line: string)
    requires IsLine(line)
    ensures '\n' !in Content(line) && line == Content(line) + Terminator(line)
  {
    if !Terminated(line) {
      assert line == line[..|line| - 1] + [line[|line| - 1]];
    }
  }

  /** The content of a rewritten line. */
  lemma NewContent(content: string, key: string, value: string)
    requires '\n' !in content && IsKey(key) && Assignment(content, key).Some?
    ensures var (head, rest) := Assignment(content, key).value;
            var content' := head + NewValue(rest, value);
            && '\n' !in content' && content' != ""
            && Assignment(content', key) == Some((head, NewValue(rest, value)))
            && (EndsWithCr(content') <==> EndsWithCr(content))
  {
    hide NewValue, Assignment;
    var (head, rest) := Assignment(content, key).value;
    AssignmentParts(content, key);
    AssignmentHead(content, key);
    NewValueFacts(rest, value);
    NewValueNotEmpty(rest, value);
    var body := NewValueShape(rest, value);
    assert forall c :: c in head || c in rest ==> c in content;
    NewValueHasNoNewline(rest, value);
    AssignmentKeeps(content, key, NewValue(rest, value));
  }

  /** A rewritten line is still one assignment line, ended as before, and is settled. */
  lemma NewLineFacts(line: string, key: string, value: string)
    requires IsLine(line) && IsKey(key) && Assigns(line, key)
    ensures var line' := NewLine(line, key, value);
            && IsLine(line') && (Terminated(line') <==> Terminated(line))
            && Settled(line', key, value)
            && Assignment(Content(line'), key).value.1 == NewValue(Assignment(Content(line), key).value.1, value)
            && (EndsWithCr(Content(line')) <==> EndsWithCr(Content(line)))
  {
    hide NewValue, Assignment;
    var content := Content(line);
    LineContent(line);
    NewContent(content, key, value);
    var (head, rest) := Assignment(content, key).value;
    ContentOf(head + NewValue(rest, value), Terminated(line));
    NewValueFacts(rest, value);
  }

  lemma NewValueNotEmpty(rest: string, value: string)
    ensures NewValue(rest, value) != ""
  {
  }

  lemma AssignmentHead(s: string, key: string)
    requires Assignment(s, key).Some?
    ensures var head := Assignment(s, key).value.0; head != "" && !EndsWithCr(head)
  {
    hide Blanks;
    var (b1, k) := Blanks(s);
    BlanksSplit(s);
    var (b2, e) := Blanks(k[|key|..]);
    BlanksSplit(k[|key|..]);
    var (b3, rest) := Blanks(e[1..]);
    BlanksSplit(e[1..]);
    if b3 != "" {
      assert Blank(b3[|b3| - 1]);
    }
  }

  /** An assignment line is not a header. */
  lemma AssignmentIsNoMarker(line: string, key: string)
    requires IsKey(key) && Assigns(line, key)
    ensures !IsMarker(line)
  {
    hide Blanks;
    var content := Content(line);
    var (b1, k) := Blanks(content);
    BlanksSplit(content);
    assert k[0] == key[0];
    if EndsWithCr(content) {
      assert k[|k| - 1] == '\r' && |k| >= 2;
      var body := content[..|content| - 1];
      assert body == b1 + k[..|k| - 1];
      BlanksOf(b1, k[..|k| - 1]);
    }
  }

  lemma MarkerIsNoAssignment(line: string, key: string)
    requires IsKey(key) && IsMarker(line)
    ensures !Assigns(line, key)
  {
    if Assigns(line, key) {
      AssignmentIsNoMarker(line, key);
    }
  }

  /** No line assigns two keys that start differently. */
  lemma OneKey(line: string, key: string, other: string)
    requires IsKey(key) && IsKey(other) && key[0] != other[0] && Assigns(line, key)
    ensures !Assigns(line, other)
  {
    hide Blanks;
    var k := Blanks(Content(line)).1;
    BlanksSplit(Content(line));
    assert k[0] == key[0];
  }
}
